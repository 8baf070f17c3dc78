/** Symbols and their canonical code words: the code of RFC 1951, section 3.2.2, as specification,
    the decoder's table (build) and the encoder's bit-reversed codes (make_codes). */
module Huffman {
  import opened Bits
  import opened Canonical

  /** The lengths of the code words of the symbols 0, 1, ..., 0 for a symbol without one. */
  type lengths = len: seq<nat> | forall i :: 0 <= i < |len| ==> len[i] <= MAXBITS

  /** How many of the first n symbols have code words of l bits. */
  function Rank(len: lengths, l: nat, n: nat): (c: nat)
    requires n <= |len|
    ensures c <= n
  {
    if n == 0 then 0 else Rank(len, l, n - 1) + if len[n - 1] == l then 1 else 0
  }

  /** How many of the first n symbols have code words of each length; words of length 0 count as
      none. */
  function Tally(len: lengths, n: nat): (c: counts)
    requires n <= |len|
    ensures c[0] == 0 && forall l :: 1 <= l <= MAXBITS ==> c[l] == Rank(len, l, n)
  {
    seq(MAXBITS + 1, l requires 0 <= l => if l == 0 then 0 else Rank(len, l, n))
  }

  function Counts(len: lengths): (c: counts)
    ensures c[0] == 0 && forall l :: 1 <= l <= MAXBITS ==> c[l] == Rank(len, l, |len|)
  {
    Tally(len, |len|)
  }

  /** The k-th symbol with a code word of l bits, among the first n. */
  function Nth(len: lengths, l: nat, k: nat, n: nat): (i: nat)
    requires n <= |len| && k < Rank(len, l, n)
    ensures i < n && len[i] == l && Rank(len, l, i) == k
  {
    if k < Rank(len, l, n - 1) then Nth(len, l, k, n - 1) else n - 1
  }

  function Code(len: lengths, i: nat): nat
    requires i < |len|
  {
    First(Counts(len), len[i]) + Rank(len, len[i], i)
  }

  /** The code word of symbol i as it stands in the stream. */
  function CodeBits(len: lengths, i: nat): (s: seq<bool>)
    requires i < |len|
    ensures |s| == len[i]
  {
    MsbBits(Code(len, i), len[i])
  }

  datatype Decoded = Symbol(sym: nat, rest: seq<bool>) | Eof | Invalid

  /** The next symbol of a bit string. */
  function Decode(len: lengths, s: seq<bool>): (d: Decoded)
    ensures d.Symbol? ==> d.sym < |len| && |d.rest| < |s|
  {
    match ReadWord(Counts(len), 1, 0, s)
    case Word(l, k, rest) => Symbol(Nth(len, l, k, |len|), rest)
    case EndOfInput => Eof
    case NoCode => Invalid
  }

  lemma {:induction false} RankMonotonic(len: lengths, l: nat, i: nat, j: nat)
    requires i <= j <= |len|
    ensures Rank(len, l, i) <= Rank(len, l, j)
    ensures i < j && len[i] == l ==> Rank(len, l, i) < Rank(len, l, j)
    decreases j
  {
    if i < j {
      RankMonotonic(len, l, i, j - 1);
    }
  }

  lemma {:induction false} RankInjective(len: lengths, i: nat, j: nat)
    requires i < |len| && j < |len| && len[i] == len[j]
    requires Rank(len, len[i], i) == Rank(len, len[i], j)
    ensures i == j
  {
    if i < j {
      RankMonotonic(len, len[i], i, j);
    } else if j < i {
      RankMonotonic(len, len[i], j, i);
    }
  }

  /** A symbol is found again by its place among those with the same length. */
  lemma {:induction false} NthRank(len: lengths, i: nat, n: nat)
    requires i < n <= |len|
    ensures Rank(len, len[i], i) < Rank(len, len[i], n)
    ensures Nth(len, len[i], Rank(len, len[i], i), n) == i
  {
    RankMonotonic(len, len[i], i, n);
    RankInjective(len, i, Nth(len, len[i], Rank(len, len[i], i), n));
  }

  /** Decoding undoes encoding, whatever follows. */
  lemma {:induction false} DecodeCodeBits(len: lengths, i: nat, rest: seq<bool>)
    requires Fits(Counts(len)) && i < |len| && 1 <= len[i]
    ensures Decode(len, CodeBits(len, i) + rest) == Symbol(i, rest)
  {
    NthRank(len, i, |len|);
    ReadBack(Counts(len), len[i], Rank(len, len[i], i), rest);
  }

  lemma {:induction false} DecodeWord(len: lengths, i: nat, s: seq<bool>, rest: seq<bool>)
    requires Fits(Counts(len)) && i < |len| && 1 <= len[i] && Same(s, CodeBits(len, i) + rest)
    ensures Same(Decode(len, s), Symbol(i, rest))
  {
    DecodeCodeBits(len, i, rest);
  }

  /** Decoding finds symbol i exactly when its code word comes first in the stream. */
  lemma {:induction false} DecodeExact(len: lengths, s: seq<bool>, i: nat, rest: seq<bool>)
    requires Fits(Counts(len))
    ensures Decode(len, s) == Symbol(i, rest) <==>
            i < |len| && len[i] >= 1 && s == CodeBits(len, i) + rest
  {
    if i < |len| && len[i] >= 1 && s == CodeBits(len, i) + rest {
      DecodeCodeBits(len, i, rest);
    }
    if Decode(len, s) == Symbol(i, rest) {
      var w := ReadWord(Counts(len), 1, 0, s);
      WordRead(Counts(len), 1, 0, s, w.l, First(Counts(len), w.l) + w.k, rest);
    }
  }

  /** No code word is a prefix of another. */
  lemma {:induction false} PrefixFree(len: lengths, i: nat, j: nat)
    requires Fits(Counts(len))
    requires i < |len| && j < |len| && len[i] >= 1 && len[j] >= 1
    requires CodeBits(len, i) <= CodeBits(len, j)
    ensures i == j
  {
    var a, b := CodeBits(len, i), CodeBits(len, j);
    assert b == a + b[|a|..] && b == b + [];
    DecodeCodeBits(len, i, b[|a|..]);
    DecodeCodeBits(len, j, []);
  }

  // ---- the decoder's table ----

  /** gzip.c's struct huff: how many code words of each length, and the symbols in the order of
      their code words. */
  datatype Table = Table(count: seq<nat>, symbol: seq<nat>)

  const TABLE_SIZE := 288

  /** Where the symbols with l bits start in that order. */
  function Offset(cnt: counts, l: nat): nat
    requires l <= MAXBITS + 1
  {
    if l == 0 then 0 else Offset(cnt, l - 1) + cnt[l - 1]
  }

  lemma {:induction false} OffsetIncrement(c: counts, d: counts, j: nat, l: nat)
    requires l <= MAXBITS + 1 && j <= MAXBITS && d == c[j := c[j] + 1]
    ensures Offset(d, l) == Offset(c, l) + if j < l then 1 else 0
    decreases l
  {
    if l > 0 {
      OffsetIncrement(c, d, j, l - 1);
    }
  }

  lemma {:induction false} OffsetMonotonic(c: counts, l: nat, m: nat)
    requires l < m <= MAXBITS + 1
    ensures Offset(c, l) + c[l] <= Offset(c, m)
    decreases m
  {
    if l + 1 < m {
      OffsetMonotonic(c, l, m - 1);
    }
  }

  lemma {:induction false} TallyNext(len: lengths, n: nat)
    requires n < |len|
    ensures len[n] == 0 ==> Tally(len, n + 1) == Tally(len, n)
    ensures len[n] > 0 ==> Tally(len, n + 1) == Tally(len, n)[len[n] := Tally(len, n)[len[n]] + 1]
  {
  }

  /** There are no more code words than symbols. */
  lemma {:induction false} OffsetTotal(len: lengths, n: nat)
    requires n <= |len|
    ensures Offset(Tally(len, n), MAXBITS + 1) <= n
    decreases n
  {
    if n == 0 {
      OffsetZero(Tally(len, 0), MAXBITS + 1);
    } else {
      OffsetTotal(len, n - 1);
      TallyNext(len, n - 1);
      var c, d := Tally(len, n - 1), Tally(len, n);
      if len[n - 1] > 0 {
        OffsetIncrement(c, d, len[n - 1], MAXBITS + 1);
      }
    }
  }

  lemma {:induction false} OffsetZero(c: counts, l: nat)
    requires l <= MAXBITS + 1 && forall j :: 0 <= j <= MAXBITS ==> c[j] == 0
    ensures Offset(c, l) == 0
    decreases l
  {
    if l > 0 {
      OffsetZero(c, l - 1);
    }
  }

  /** Where the symbols of each length start. */
  function Offsets(c: counts): (offs: seq<nat>)
    ensures |offs| == MAXBITS + 2 && forall l :: 0 <= l <= MAXBITS + 1 ==> offs[l] == Offset(c, l)
  {
    seq(MAXBITS + 2, l requires 0 <= l <= MAXBITS + 1 => Offset(c, l))
  }

  /** There is room for the symbols of each length before those of the next. */
  ghost predicate Roomy(len: lengths, offs: seq<nat>)
  {
    && |offs| == MAXBITS + 2
    && forall l, m :: 1 <= l < m <= MAXBITS + 1 ==> offs[l] + Rank(len, l, |len|) <= offs[m] <= TABLE_SIZE
  }

  lemma {:induction false} OffsetsRoomy(len: lengths)
    requires |len| <= TABLE_SIZE
    ensures Roomy(len, Offsets(Counts(len)))
  {
    var c := Counts(len);
    OffsetTotal(len, |len|);
    forall l, m | 1 <= l < m <= MAXBITS + 1
      ensures Offset(c, l) + c[l] <= Offset(c, m) <= TABLE_SIZE
    {
      OffsetMonotonic(c, l, m);
      if m <= MAXBITS {
        OffsetMonotonic(c, m, MAXBITS + 1);
      }
    }
  }

  /** The first n symbols stand at their places in a table of symbols. */
  ghost predicate Sorted(len: lengths, n: nat, offs: seq<nat>, symbol: seq<nat>)
    requires n <= |len| && Roomy(len, offs)
  {
    && |symbol| == TABLE_SIZE
    && forall i :: 0 <= i < n && len[i] > 0 ==> Holds(symbol, offs[len[i]] + Rank(len, len[i], i), i)
  }

  ghost predicate Holds(symbol: seq<nat>, p: nat, i: nat)
  {
    p < |symbol| && symbol[p] == i
  }

  ghost predicate Tabulates(h: Table, len: lengths)
  {
    && |len| <= TABLE_SIZE
    && |h.count| == MAXBITS + 1
    && (forall l :: 1 <= l <= MAXBITS ==> h.count[l] == Counts(len)[l])
    && (OffsetsRoomy(len); Sorted(len, |len|, Offsets(Counts(len)), h.symbol))
  }

  /** Different symbols have different places. */
  lemma {:induction false} Places(len: lengths, offs: seq<nat>, i: nat, j: nat)
    requires Roomy(len, offs) && i < j < |len| && len[i] > 0 && len[j] > 0
    ensures offs[len[i]] + Rank(len, len[i], i) != offs[len[j]] + Rank(len, len[j], j) < TABLE_SIZE
  {
    NthRank(len, i, |len|);
    NthRank(len, j, |len|);
    assert offs[len[j]] + Rank(len, len[j], |len|) <= offs[MAXBITS + 1];
    if len[i] == len[j] {
      RankMonotonic(len, len[i], i, j);
    } else {
      assert len[i] < len[j] || len[j] < len[i];
    }
  }

  /** Putting symbol n at its place. */
  lemma {:induction false} SortedNext(len: lengths, n: nat, offs: seq<nat>, symbol: seq<nat>)
    requires n < |len| && len[n] > 0 && Roomy(len, offs) && Sorted(len, n, offs, symbol)
    ensures var p := offs[len[n]] + Rank(len, len[n], n);
            p < TABLE_SIZE && Sorted(len, n + 1, offs, symbol[p := n])
  {
    hide Rank;
    var p := offs[len[n]] + Rank(len, len[n], n);
    NthRank(len, n, |len|);
    assert offs[len[n]] + Rank(len, len[n], |len|) <= offs[MAXBITS + 1];
    forall i | 0 <= i < n && len[i] > 0
      ensures Holds(symbol[p := n], offs[len[i]] + Rank(len, len[i], i), i)
    {
      Places(len, offs, i, n);
    }
  }

  method CountLengths(len: lengths) returns (count: seq<nat>)
    ensures |count| == MAXBITS + 1
    ensures forall l :: 0 <= l <= MAXBITS ==> count[l] == Rank(len, l, |len|)
  {
    count := Repeat(0, MAXBITS + 1);
    for s := 0 to |len|
      invariant |count| == MAXBITS + 1
      invariant forall l :: 0 <= l <= MAXBITS ==> count[l] == Rank(len, l, s)
    {
      count := count[len[s] := count[len[s]] + 1];
    }
  }

  /** The next symbol of each length goes there, after the first n are placed. */
  ghost predicate NextPlaces(len: lengths, n: nat, starts: seq<nat>, offs: seq<nat>)
    requires n <= |len|
  {
    |offs| == MAXBITS + 1 == |starts| - 1 && forall m :: 1 <= m <= MAXBITS ==> offs[m] == starts[m] + Rank(len, m, n)
  }

  lemma {:induction false} NoneSorted(len: lengths, c: counts, offs: seq<nat>, symbol: seq<nat>)
    requires symbol == Repeat(0, TABLE_SIZE) && Roomy(len, Offsets(c))
    requires |offs| == MAXBITS + 1 && forall m :: 1 <= m <= MAXBITS ==> offs[m] == Offset(c, m)
    ensures Sorted(len, 0, Offsets(c), symbol) && NextPlaces(len, 0, Offsets(c), offs)
  {
  }

  lemma {:induction false} OneSkipped(len: lengths, s: nat, starts: seq<nat>, offs: seq<nat>, symbol: seq<nat>)
    requires s < |len| && len[s] == 0 && Roomy(len, starts) && Sorted(len, s, starts, symbol) && NextPlaces(len, s, starts, offs)
    ensures Sorted(len, s + 1, starts, symbol) && NextPlaces(len, s + 1, starts, offs)
  {
  }

  lemma {:induction false} OnePlaced(len: lengths, s: nat, starts: seq<nat>, offs: seq<nat>, symbol: seq<nat>)
    requires s < |len| && len[s] > 0 && Roomy(len, starts) && Sorted(len, s, starts, symbol) && NextPlaces(len, s, starts, offs)
    ensures |offs| == MAXBITS + 1 && offs[len[s]] < |symbol|
    ensures Sorted(len, s + 1, starts, symbol[offs[len[s]] := s])
    ensures NextPlaces(len, s + 1, starts, offs[len[s] := offs[len[s]] + 1])
  {
    SortedNext(len, s, starts, symbol);
    hide Roomy, Holds;
  }

  method SortSymbols(len: lengths, count: seq<nat>) returns (symbol: seq<nat>)
    requires |len| <= TABLE_SIZE && |count| == MAXBITS + 1
    requires forall l :: 1 <= l <= MAXBITS ==> count[l] == Counts(len)[l]
    ensures Roomy(len, Offsets(Counts(len))) && Sorted(len, |len|, Offsets(Counts(len)), symbol)
  {
    hide *;
    NoZeros(len);
    var offs := StartOffsets(Counts(len), count);
    ghost var starts := Offsets(Counts(len));
    OffsetsRoomy(len);
    symbol := Repeat(0, TABLE_SIZE);
    NoneSorted(len, Counts(len), offs, symbol);
    for s := 0 to |len|
      invariant NextPlaces(len, s, starts, offs) && Sorted(len, s, starts, symbol)
    {
      if len[s] != 0 {
        OnePlaced(len, s, starts, offs, symbol);
        symbol := symbol[offs[len[s]] := s];
        offs := offs[len[s] := offs[len[s]] + 1];
      } else {
        OneSkipped(len, s, starts, offs, symbol);
      }
    }
  }

  lemma {:induction false} NoZeros(len: lengths)
    ensures |Counts(len)| == MAXBITS + 1 && Counts(len)[0] == 0
  {
  }

  method StartOffsets(ghost c: counts, count: seq<nat>) returns (offs: seq<nat>)
    requires |count| == MAXBITS + 1 && c[0] == 0
    requires forall l :: 1 <= l <= MAXBITS ==> count[l] == c[l]
    ensures |offs| == MAXBITS + 1 && forall m :: 1 <= m <= MAXBITS ==> offs[m] == Offset(c, m)
  {
    offs := Repeat(0, MAXBITS + 1);
    assert Offset(c, 1) == Offset(c, 0) + c[0];
    for l := 1 to MAXBITS
      invariant |offs| == MAXBITS + 1
      invariant forall m :: 1 <= m <= l ==> offs[m] == Offset(c, m)
    {
      offs := offs[l + 1 := offs[l] + count[l]];
    }
  }

  /** The symbols without a code word and those with one are all the symbols. */
  lemma {:induction false} NoWords(len: lengths, n: nat, l: nat)
    requires n <= |len| && 1 <= l && Rank(len, 0, n) == n
    ensures Rank(len, l, n) == 0
    decreases n
  {
    if n > 0 {
      NoWords(len, n - 1, l);
    }
  }

  lemma {:induction false} LeftWithoutWords(c: counts, l: nat)
    requires l <= MAXBITS && forall j :: 1 <= j <= MAXBITS ==> c[j] == 0
    ensures Left(c, l) >= 1
    decreases l
  {
    if l > 0 {
      LeftWithoutWords(c, l - 1);
    }
  }

  lemma {:induction false} EmptyCode(len: lengths)
    requires Rank(len, 0, |len|) == |len| <= TABLE_SIZE
    ensures Fits(Counts(len))
    ensures Roomy(len, Offsets(Counts(len))) && Sorted(len, |len|, Offsets(Counts(len)), Repeat(0, TABLE_SIZE))
  {
    forall l | 1 <= l <= MAXBITS ensures Rank(len, l, |len|) == 0 {
      NoWords(len, |len|, l);
    }
    forall l | 0 <= l <= MAXBITS ensures Left(Counts(len), l) >= 0 {
      LeftWithoutWords(Counts(len), l);
    }
    OffsetsRoomy(len);
    forall i | 0 <= i < |len| ensures len[i] == 0 {
      if len[i] > 0 {
        NthRank(len, i, |len|);
      }
    }
  }

  /** How much of the code space the code words leave, or -1 if they do not fit in it. */
  method Remaining(ghost c: counts, count: seq<nat>) returns (left: int)
    requires |count| == MAXBITS + 1
    requires forall l :: 1 <= l <= MAXBITS ==> count[l] == c[l]
    ensures left >= 0 <==> Fits(c)
    ensures left >= 0 ==> left == Left(c, MAXBITS)
  {
    left := 1;
    for l := 1 to MAXBITS + 1
      invariant left == Left(c, l - 1)
      invariant forall m :: 0 <= m < l ==> Left(c, m) >= 0
    {
      left := 2 * left;
      left := left - count[l];
      if left < 0 {
        assert Left(c, l) < 0;
        return -1;
      }
    }
  }

  /** build: the table of a code, unless it is over-subscribed; refused also when it is incomplete
      with more than one code word. */
  method Build(len: lengths) returns (ok: bool, h: Table)
    requires |len| <= TABLE_SIZE
    ensures Fits(Counts(len)) ==> Tabulates(h, len)
    ensures ok <==> Fits(Counts(len)) && (Rank(len, 0, |len|) >= |len| - 1 || Left(Counts(len), MAXBITS) == 0)
  {
    var count := CountLengths(len);
    var symbol := Repeat(0, TABLE_SIZE);
    h := Table(count, symbol);
    if count[0] == |len| {
      EmptyCode(len);
      return true, h;
    }
    var left := Remaining(Counts(len), count);
    if left < 0 {
      return false, h;
    }
    symbol := SortSymbols(len, count);
    h := Table(count, symbol);
    ok := left == 0 || |len| - count[0] == 1;
  }

  // ---- the encoder's codes ----

  method FirstCodes(len: lengths) returns (next: seq<nat>)
    ensures |next| == MAXBITS + 1
    ensures forall m :: 1 <= m <= MAXBITS ==> next[m] == First(Counts(len), m)
  {
    var count := CountLengths(len);
    count := count[0 := 0];
    ghost var cnt := Counts(len);
    next := Repeat(0, MAXBITS + 1);
    var c := 0;
    for l := 1 to MAXBITS + 1
      invariant |next| == MAXBITS + 1 && c == First(cnt, l - 1)
      invariant forall m :: 1 <= m < l ==> next[m] == First(cnt, m)
    {
      c := (c + count[l - 1]) * 2;
      next := next[l := c];
    }
  }

  /** v, written low bit first, is the code word of symbol i. */
  ghost predicate IsCode(len: lengths, i: nat, v: nat)
    requires i < |len|
  {
    v < Pow2(len[i]) && ToBits(v, len[i]) == CodeBits(len, i)
  }

  ghost predicate AreCodes(len: lengths, n: nat, code: seq<nat>)
    requires n <= |len|
  {
    |code| == |len| && forall i :: 0 <= i < n && len[i] > 0 ==> IsCode(len, i, code[i])
  }

  /** make_codes: each code word as a number, to be written low bit first. */
  method MakeCodes(len: lengths) returns (code: seq<nat>)
    ensures AreCodes(len, |len|, code)
  {
    var next := FirstCodes(len);
    code := Repeat(0, |len|);
    for i := 0 to |len|
      invariant NextCodes(len, i, next)
      invariant AreCodes(len, i, code)
    {
      if len[i] != 0 {
        var r := Reverse(next[len[i]], len[i]);
        CodesNext(len, i, next, code, r);
        next := next[len[i] := next[len[i]] + 1];
        code := code[i := r];
      }
    }
  }

  lemma {:induction false} CodesNext(len: lengths, i: nat, next: seq<nat>, code: seq<nat>, r: nat)
    requires i < |len| && len[i] > 0 && NextCodes(len, i, next) && AreCodes(len, i, code)
    requires r < Pow2(len[i]) && ToBits(r, len[i]) == MsbBits(next[len[i]], len[i])
    ensures NextCodes(len, i + 1, next[len[i] := next[len[i]] + 1])
    ensures AreCodes(len, i + 1, code[i := r])
  {
    assert IsCode(len, i, r);
  }

  /** The code words that come next after those of the first n symbols. */
  ghost predicate NextCodes(len: lengths, n: nat, next: seq<nat>)
    requires n <= |len|
  {
    |next| == MAXBITS + 1 && forall l :: 1 <= l <= MAXBITS ==> next[l] == First(Counts(len), l) + Rank(len, l, n)
  }

  /** The n low bits of v in the opposite order. */
  method Reverse(v: nat, n: nat) returns (r: nat)
    ensures r < Pow2(n) && ToBits(r, n) == MsbBits(v, n)
  {
    r := 0;
    var w := v;
    assert MsbBits(v, n) == MsbBits(v, n) + ToBits(0, 0);
    for k := 0 to n
      invariant r < Pow2(k) && Same(MsbBits(v, n), MsbBits(w, n - k) + ToBits(r, k))
    {
      ReverseStep(w, n - k, r, k);
      r := 2 * r + w % 2;
      w := w / 2;
    }
  }

  lemma {:induction false} ReverseStep(w: nat, m: nat, r: nat, k: nat)
    requires m > 0
    ensures MsbBits(w, m) + ToBits(r, k) == MsbBits(w / 2, m - 1) + ToBits(2 * r + w % 2, k + 1)
  {
    assert ToBits(2 * r + w % 2, k + 1) == [w % 2 == 1] + ToBits(r, k);
  }
}
