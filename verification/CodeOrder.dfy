/** Which code words a canonical code has (RFC 1951, section 3.2.2): read as a binary fraction, each is
    the room that the words before it take. */
module CodeOrder {
  import opened Canonical
  import opened Bits
  import opened Huffman
  import opened Kraft

  /** A string of bits as a binary fraction, the first bit being one half. */
  function Fraction(s: seq<bool>): real
  {
    if s == [] then 0.0 else (if s[0] then 0.5 else 0.0) + Fraction(s[1..]) / 2.0
  }

  /** Symbol j comes before i: its word is shorter, or as long and its number less. */
  predicate Precedes(len: lengths, j: nat, i: nat)
    requires i < |len| && j < |len|
  {
    0 < len[j] && (len[j] < len[i] || (len[j] == len[i] && j < i))
  }

  /** The room that the words before that of i take, among the first n symbols. */
  function RoomBefore(len: lengths, i: nat, n: nat): real
    requires i < |len| && n <= |len|
  {
    if n == 0 then 0.0 else RoomBefore(len, i, n - 1) + if Precedes(len, n - 1, i) then Half(len[n - 1]) else 0.0
  }

  lemma {:induction false} FractionSnoc(s: seq<bool>, b: bool)
    ensures Fraction(s + [b]) == Fraction(s) + if b then Half(|s| + 1) else 0.0
  {
    if s == [] {
      assert s + [b] == [b] && [b][1..] == [];
      assert Half(1) == Half(0) / 2.0;
    } else {
      FractionSnoc(s[1..], b);
      assert (s + [b])[1..] == s[1..] + [b];
    }
  }

  lemma {:induction false} TimesDouble(v: nat, q: nat, r: nat, h: real)
    requires v == 2 * q + r
    ensures Times(v, h / 2.0) == Times(q, h) + r as real * (h / 2.0)
  {
    TimesIsProduct(v, h / 2.0);
    TimesIsProduct(q, h);
    TwiceHalf(q as real, r as real, h);
  }

  lemma {:induction false} TwiceHalf(q: real, r: real, h: real)
    ensures (2.0 * q + r) * (h / 2.0) == q * h + r * (h / 2.0)
  {
  }

  lemma {:induction false} FractionOfNumber(v: nat, n: nat)
    requires v < Pow2(n)
    ensures Fraction(MsbBits(v, n)) == Times(v, Half(n))
  {
    if n == 0 {
      assert v == 0;
    } else {
      var b := v % 2 == 1;
      HalfOf(v, n);
      FractionOfNumber(v / 2, n - 1);
      hide *;
      FractionSnoc(MsbBits(v / 2, n - 1), b);
      HalfNext(n);
      TimesDouble(v, v / 2, v % 2, Half(n - 1));
      OneOrNone(b, v % 2, Half(n));
    }
  }

  lemma {:induction false} HalfOf(v: nat, n: nat)
    requires n > 0 && v < Pow2(n)
    ensures v / 2 < Pow2(n - 1) && MsbBits(v, n) == MsbBits(v / 2, n - 1) + [v % 2 == 1]
  {
  }

  lemma {:induction false} HalfNext(n: nat)
    requires n > 0
    ensures Half(n) == Half(n - 1) / 2.0
  {
  }

  lemma {:induction false} OneOrNone(b: bool, r: nat, h: real)
    requires r == if b then 1 else 0
    ensures r as real * h == if b then h else 0.0
  {
  }

  lemma {:induction false} FirstIsRoom(c: counts, l: nat)
    requires 1 <= l <= MAXBITS
    ensures Times(First(c, l), Half(l)) == CountSum(c, l - 1)
  {
    if l > 1 {
      FirstIsRoom(c, l - 1);
      var n := First(c, l - 1) + c[l - 1];
      assert First(c, l) == 2 * n;
      hide First, Times;
      HalfNext(l);
      TimesDouble(First(c, l), n, 0, Half(l - 1));
      TimesAdd(First(c, l - 1), c[l - 1], Half(l - 1));
    }
  }

  lemma {:induction false} TimesAdd(m: nat, n: nat, h: real)
    ensures Times(m + n, h) == Times(m, h) + Times(n, h)
  {
    if n > 0 {
      TimesAdd(m, n - 1, h);
    }
  }

  /** The shorter words, and those as long that come before. */
  lemma {:induction false} RoomParts(len: lengths, i: nat, n: nat)
    requires i < |len| && n <= |len| && len[i] > 0
    ensures RoomBefore(len, i, n) == CountSum(Tally(len, n), len[i] - 1) + Times(Rank(len, len[i], Least(n, i)), Half(len[i]))
  {
    if n == 0 {
      CountSumZero(Tally(len, 0), len[i] - 1);
    } else {
      RoomParts(len, i, n - 1);
      RoomNext(len, i, n);
      hide *;
      ShorterNext(len, len[i], n);
      RankNext(len, i, n);
    }
  }

  lemma {:induction false} RoomNext(len: lengths, i: nat, n: nat)
    requires 0 < n <= |len| && i < |len|
    ensures RoomBefore(len, i, n) == RoomBefore(len, i, n - 1)
      + (if 0 < len[n - 1] < len[i] then Half(len[n - 1]) else 0.0) + if 0 < len[n - 1] == len[i] && n - 1 < i then Half(len[i]) else 0.0
  {
    hide Half;
  }

  function Least(m: nat, n: nat): nat
  {
    if m < n then m else n
  }

  lemma {:induction false} ShorterNext(len: lengths, l: nat, n: nat)
    requires 0 < n <= |len| && 0 < l <= MAXBITS
    ensures CountSum(Tally(len, n), l - 1) == CountSum(Tally(len, n - 1), l - 1) + if 0 < len[n - 1] < l then Half(len[n - 1]) else 0.0
  {
    hide Half, CountSum, Tally;
    TallyNext(len, n - 1);
    if len[n - 1] > 0 {
      CountSumIncrement(Tally(len, n - 1), Tally(len, n), len[n - 1], l - 1);
    }
  }

  lemma {:induction false} RankNext(len: lengths, i: nat, n: nat)
    requires 0 < n <= |len| && i < |len|
    ensures Times(Rank(len, len[i], Least(n, i)), Half(len[i]))
      == Times(Rank(len, len[i], Least(n - 1, i)), Half(len[i])) + if len[n - 1] == len[i] && n - 1 < i then Half(len[i]) else 0.0
  {
    hide Half;
  }

  /** The code word of a symbol is the room that the words before it take. */
  lemma {:induction false} WordIsRoom(len: lengths, i: nat)
    requires Fits(Counts(len)) && i < |len| && len[i] > 0
    ensures |CodeBits(len, i)| == len[i] && Fraction(CodeBits(len, i)) == RoomBefore(len, i, |len|)
  {
    hide Fraction, RoomBefore, CountSum, Times, Half, Rank, Left, First;
    var c, l, k := Counts(len), len[i], Rank(len, len[i], i);
    NthRank(len, i, |len|);
    FirstAndLeft(c, l);
    FractionOfNumber(Code(len, i), l);
    RoomParts(len, i, |len|);
    FirstIsRoom(c, l);
    TimesAdd(First(c, l), k, Half(l));
  }
}
