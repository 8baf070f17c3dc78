/** Canonical prefix codes (RFC 1951, section 3.2.2): a code is given by the length of each
    symbol's code word alone, 0 for a symbol without one. */
module Canonical {
  import opened Bits

  const MAXBITS := 15

  /** How many code words there are of each length. */
  type counts = c: seq<nat> | |c| == MAXBITS + 1 witness [0, 0, 0, 0, 0, 0, 0, 0, 0, 0, 0, 0, 0, 0, 0, 0]

  /** The first code word of l bits. */
  function First(cnt: counts, l: nat): nat
    requires l <= MAXBITS + 1
  {
    if l <= 1 then 0 else 2 * (First(cnt, l - 1) + cnt[l - 1])
  }

  /** How many strings of l bits have no code word of at most l bits as a prefix. */
  function Left(cnt: counts, l: nat): int
    requires l <= MAXBITS
  {
    if l == 0 then 1 else 2 * Left(cnt, l - 1) - cnt[l]
  }

  /** The code words fit: the code is not over-subscribed. */
  ghost predicate Fits(cnt: counts)
  {
    forall l :: 0 <= l <= MAXBITS ==> Left(cnt, l) >= 0
  }

  /** The n low bits of v, most significant first. */
  function MsbBits(v: nat, n: nat): (s: seq<bool>)
    ensures |s| == n
  {
    if n == 0 then [] else MsbBits(v / 2, n - 1) + [v % 2 == 1]
  }

  /** v without its m low bits. */
  function Top(v: nat, m: nat): nat
  {
    if m == 0 then v else Top(v, m - 1) / 2
  }

  function Bit(b: bool): nat
  {
    if b then 1 else 0
  }

  lemma {:induction false} TopOfHalf(v: nat, m: nat)
    ensures Top(v / 2, m) == Top(v, m + 1)
    decreases m
  {
    if m > 0 {
      TopOfHalf(v, m - 1);
    }
  }

  lemma {:induction false} TopLess(v: nat, m: nat, n: nat)
    requires v < Pow2(m + n)
    ensures Top(v, m) < Pow2(n)
    decreases m
  {
    if m > 0 {
      TopLess(v, m - 1, n + 1);
    }
  }

  lemma {:induction false} MsbHead(v: nat, n: nat)
    requires n > 0
    ensures MsbBits(v, n) == [Top(v, n - 1) % 2 == 1] + MsbBits(v, n - 1)
    decreases n
  {
    if n > 1 {
      MsbHead(v / 2, n - 1);
      TopOfHalf(v, n - 2);
    }
  }

  /** The first of the n low bits of v. */
  lemma {:induction false} MsbFirst(v: nat, n: nat, rest: seq<bool>) returns (b: bool)
    requires n > 0
    ensures Same(MsbBits(v, n) + rest, [b] + (MsbBits(v, n - 1) + rest))
    ensures Top(v, n - 1) == 2 * Top(v, n) + Bit(b)
    ensures n == 1 ==> MsbBits(v, n - 1) + rest == rest
  {
    b := Top(v, n - 1) % 2 == 1;
    MsbHead(v, n);
    assert MsbBits(v, n) + rest == [b] + (MsbBits(v, n - 1) + rest);
  }

  lemma {:induction false} FirstAndLeft(cnt: counts, l: nat)
    requires 1 <= l <= MAXBITS
    ensures First(cnt, l) + cnt[l] + Left(cnt, l) == Pow2(l)
    decreases l
  {
    if l == 1 {
      assert Left(cnt, 0) == 1;
      assert Pow2(0) == 1;
    } else {
      FirstAndLeft(cnt, l - 1);
    }
  }

  /** Code words with m more bits come after all the code words of l bits. */
  lemma {:induction false} BeyondShorter(cnt: counts, l: nat, m: nat, c: nat)
    requires l >= 1 && m >= 1 && l + m <= MAXBITS && c >= First(cnt, l + m)
    ensures Top(c, m) >= First(cnt, l) + cnt[l]
    decreases m
  {
    TopOfHalf(c, m - 1);
    if m > 1 {
      BeyondShorter(cnt, l, m - 1, c / 2);
    }
  }

  /** The k-th code word of l bits was read, or no code word is in sight. */
  datatype Read = Word(l: nat, k: nat, rest: seq<bool>) | EndOfInput | NoCode

  /** Bit-serial decoding: code is twice the l - 1 bits read so far. */
  function ReadWord(cnt: counts, l: nat, code: nat, s: seq<bool>): (r: Read)
    requires 1 <= l <= MAXBITS + 1 && First(cnt, l) <= code
    ensures r.Word? ==> 1 <= r.l <= MAXBITS && r.k < cnt[r.l] && |r.rest| < |s|
    decreases |s|
  {
    if l > MAXBITS then NoCode
    else if s == [] then EndOfInput
    else
      var c := code + Bit(s[0]);
      if c < First(cnt, l) + cnt[l] then Word(l, c - First(cnt, l), s[1..])
      else ReadWord(cnt, l + 1, 2 * c, s[1..])
  }

  lemma {:induction false} ReadHit(cnt: counts, l: nat, code: nat, b: bool, s: seq<bool>)
    requires 1 <= l <= MAXBITS && First(cnt, l) <= code
    requires code + Bit(b) < First(cnt, l) + cnt[l]
    ensures ReadWord(cnt, l, code, [b] + s) == Word(l, code + Bit(b) - First(cnt, l), s)
  {
  }

  lemma {:induction false} ReadMiss(cnt: counts, l: nat, code: nat, b: bool, s: seq<bool>)
    requires 1 <= l <= MAXBITS && First(cnt, l) <= code
    requires code + Bit(b) >= First(cnt, l) + cnt[l]
    ensures ReadWord(cnt, l, code, [b] + s) == ReadWord(cnt, l + 1, 2 * (code + Bit(b)), s)
  {
    assert ([b] + s)[1..] == s;
  }

  /** With all but the last m of L bits of a code word c read, the rest of it is found. */
  lemma {:induction false} ReadRest(cnt: counts, L: nat, c: nat, m: nat, l: nat, v: nat, s: seq<bool>, rest: seq<bool>)
    requires 1 <= m <= L <= MAXBITS && First(cnt, L) <= c < First(cnt, L) + cnt[L]
    requires l == L - m + 1 && v == Top(c, m) && First(cnt, l) <= 2 * v
    requires s == MsbBits(c, m) + rest
    ensures Same(ReadWord(cnt, l, 2 * v, s), Word(L, c - First(cnt, L), rest))
    decreases m
  {
    var b := MsbFirst(c, m, rest);
    var t := MsbBits(c, m - 1) + rest;
    if m == 1 {
      ReadHit(cnt, l, 2 * v, b, t);
    } else {
      BeyondShorter(cnt, l, m - 1, c);
      ReadMiss(cnt, l, 2 * v, b, t);
      ReadRest(cnt, L, c, m - 1, l + 1, 2 * v + Bit(b), t, rest);
    }
  }

  /** A code word is read back, whatever follows. */
  lemma {:induction false} ReadBack(cnt: counts, L: nat, k: nat, rest: seq<bool>)
    requires 1 <= L <= MAXBITS && k < cnt[L] && Left(cnt, L) >= 0
    ensures ReadWord(cnt, 1, 0, MsbBits(First(cnt, L) + k, L) + rest) == Word(L, k, rest)
  {
    FirstAndLeft(cnt, L);
    TopLess(First(cnt, L) + k, L, 0);
    ReadRest(cnt, L, First(cnt, L) + k, L, 1, 0, MsbBits(First(cnt, L) + k, L) + rest, rest);
  }

  /** What is read was there: the bits taken are those of the code word found. */
  lemma {:induction false} WordRead(cnt: counts, l: nat, v: nat, s: seq<bool>, L: nat, c: nat, rest: seq<bool>)
    requires 1 <= l <= MAXBITS + 1 && First(cnt, l) <= 2 * v
    requires L <= MAXBITS && c >= First(cnt, L)
    requires ReadWord(cnt, l, 2 * v, s) == Word(L, c - First(cnt, L), rest)
    ensures l <= L && Top(c, L - l + 1) == v
    ensures s == MsbBits(c, L - l + 1) + rest
    decreases |s|
  {
    var t := s[1..];
    assert s == [s[0]] + t;
    if 2 * v + Bit(s[0]) < First(cnt, l) + cnt[l] {
      ReadHit(cnt, l, 2 * v, s[0], t);
      var b := MsbFirst(c, 1, rest);
    } else {
      ReadMiss(cnt, l, 2 * v, s[0], t);
      WordRead(cnt, l + 1, 2 * v + Bit(s[0]), t, L, c, rest);
      var b := MsbFirst(c, L - l + 1, rest);
    }
  }
}
