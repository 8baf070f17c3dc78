/** Kraft's inequality: a canonical code fits exactly when the powers 2^-length of its code words
    add up to at most 1, and leaves nothing over exactly when they add up to 1. */
module Kraft {
  import opened Canonical
  import opened Huffman

  /** 2^-d */
  function Half(d: nat): (r: real)
    ensures 0.0 < r <= 1.0
  {
    if d == 0 then 1.0 else Half(d - 1) / 2.0
  }

  function KraftSum(len: lengths, n: nat): real
    requires n <= |len|
  {
    if n == 0 then 0.0 else KraftSum(len, n - 1) + if len[n - 1] > 0 then Half(len[n - 1]) else 0.0
  }

  function Times(n: nat, h: real): (r: real)
    ensures h >= 0.0 ==> r >= 0.0
  {
    if n == 0 then 0.0 else Times(n - 1, h) + h
  }

  lemma {:induction false} TimesIsProduct(n: nat, h: real)
    ensures Times(n, h) == n as real * h
  {
    if n > 0 {
      TimesIsProduct(n - 1, h);
      assert n as real * h == (n - 1) as real * h + h;
    }
  }

  /** The same sum, length by length. */
  function CountSum(c: counts, l: nat): real
    requires l <= MAXBITS
  {
    if l == 0 then 0.0 else CountSum(c, l - 1) + Times(c[l], Half(l))
  }

  lemma {:induction false} CountSumIncrement(c: counts, d: counts, j: nat, l: nat)
    requires l <= MAXBITS && 1 <= j <= MAXBITS && d == c[j := c[j] + 1]
    ensures CountSum(d, l) == CountSum(c, l) + if j <= l then Half(j) else 0.0
    decreases l
  {
    if l > 0 {
      CountSumIncrement(c, d, j, l - 1);
    }
  }

  lemma {:induction false} CountSumZero(c: counts, l: nat)
    requires l <= MAXBITS && forall j :: 1 <= j <= MAXBITS ==> c[j] == 0
    ensures CountSum(c, l) == 0.0
    decreases l
  {
    if l > 0 {
      CountSumZero(c, l - 1);
    }
  }

  lemma {:induction false} SumsAgree(len: lengths, n: nat)
    requires n <= |len|
    ensures KraftSum(len, n) == CountSum(Tally(len, n), MAXBITS)
    decreases n
  {
    if n == 0 {
      CountSumZero(Tally(len, 0), MAXBITS);
    } else {
      SumsAgree(len, n - 1);
      TallyNext(len, n - 1);
      var c, d := Tally(len, n - 1), Tally(len, n);
      if len[n - 1] > 0 {
        CountSumIncrement(c, d, len[n - 1], MAXBITS);
      }
    }
  }

  function SignedTimes(n: int, h: real): real
  {
    if n < 0 then -Times(-n, h) else Times(n, h)
  }

  lemma {:induction false} LeftAsSum(c: counts, l: nat)
    requires l <= MAXBITS
    ensures SignedTimes(Left(c, l), Half(l)) == 1.0 - CountSum(c, l)
    decreases l
  {
    if l > 0 {
      LeftAsSum(c, l - 1);
      LeftStep(Left(c, l - 1), c[l], Half(l - 1), CountSum(c, l - 1), Left(c, l), Half(l));
    } else {
      assert Times(1, 1.0) == Times(0, 1.0) + 1.0;
    }
  }

  lemma {:induction false} SignedTimesIsProduct(n: int, h: real)
    ensures SignedTimes(n, h) == n as real * h
  {
    TimesIsProduct(if n < 0 then -n else n, h);
    assert (-n) as real * h == -(n as real * h);
  }

  lemma {:induction false} LeftStep(a: int, b: nat, h: real, s: real, a': int, h': real)
    requires SignedTimes(a, h) == 1.0 - s && h' == h / 2.0 && a' == 2 * a - b
    ensures SignedTimes(a', h') == 1.0 - (s + Times(b, h'))
  {
    SignedTimesIsProduct(a, h);
    SignedTimesIsProduct(a', h');
    TimesIsProduct(b, h');
    HalfStep(a as real, b as real, h, a' as real);
  }

  lemma {:induction false} HalfStep(x: real, y: real, h: real, x': real)
    requires x' == 2.0 * x - y
    ensures x' * (h / 2.0) == x * h - y * (h / 2.0)
  {
  }

  lemma {:induction false} CountSumMonotonic(c: counts, l: nat, m: nat)
    requires l <= m <= MAXBITS
    ensures CountSum(c, l) <= CountSum(c, m)
    decreases m
  {
    if l < m {
      CountSumMonotonic(c, l, m - 1);
    }
  }

  lemma {:induction false} TimesPositive(n: nat, h: real)
    requires h > 0.0
    ensures n > 0 ==> Times(n, h) > 0.0
  {
    if n > 1 {
      TimesPositive(n - 1, h);
    }
  }

  lemma {:induction false} LeftSign(c: counts, l: nat)
    requires l <= MAXBITS
    ensures Left(c, l) >= 0 <==> CountSum(c, l) <= 1.0
    ensures Left(c, l) == 0 <==> CountSum(c, l) == 1.0
  {
    LeftAsSum(c, l);
    var n := Left(c, l);
    TimesPositive(if n < 0 then -n else n, Half(l));
  }

  lemma {:induction false} KraftInequality(len: lengths)
    ensures Fits(Counts(len)) <==> KraftSum(len, |len|) <= 1.0
    ensures Left(Counts(len), MAXBITS) == 0 <==> KraftSum(len, |len|) == 1.0
  {
    var c := Counts(len);
    SumsAgree(len, |len|);
    forall l | 0 <= l <= MAXBITS
      ensures CountSum(c, MAXBITS) <= 1.0 ==> Left(c, l) >= 0
    {
      LeftSign(c, l);
      CountSumMonotonic(c, l, MAXBITS);
    }
    LeftSign(c, MAXBITS);
  }
}
