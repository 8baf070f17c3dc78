/** Quotients cut off toward zero, the way bc cuts them off. */
module Fractions {
  import opened Arith
  import opened Division

  function Abs(x: int): (r: nat)
    ensures r == x || r == -x
  {
    if x < 0 then -x else x
  }

  /** q is x / y without its fraction. */
  ghost predicate Truncates(q: int, x: int, y: int)
  {
    IsQuotient(Abs(x), Abs(y), Abs(q)) && (q != 0 ==> (q < 0 <==> ((x < 0) != (y < 0))))
  }

  lemma {:induction false} QuotientIsUnique(u: nat, v: nat, q: nat, q': nat)
    requires IsQuotient(u, v, q) && IsQuotient(u, v, q')
    ensures q == q'
  {
    ScaleLess(q, q' + 1, v);
    ScaleLess(q', q + 1, v);
  }

  lemma {:induction false} TruncatesUnique(q: int, q': int, x: int, y: int)
    requires Truncates(q, x, y) && Truncates(q', x, y)
    ensures q == q'
  {
    hide IsQuotient;
    QuotientIsUnique(Abs(x), Abs(y), Abs(q), Abs(q'));
  }

  lemma {:induction false} AbsProduct(x: int, y: int)
    ensures Abs(x * y) == Abs(x) * Abs(y)
    ensures x * y < 0 <==> (x != 0 && y != 0 && (x < 0) != (y < 0))
  {
    if x < 0 {
      if y < 0 {
        assert x * y == -x * -y;
        Positive(-x, -y);
      } else {
        assert x * y == -(-x * y);
        Positive(-x, y);
      }
    } else if y < 0 {
      assert x * y == -(x * -y);
      Positive(x, -y);
    } else {
      Positive(x, y);
    }
  }

  lemma {:induction false} Positive(x: nat, y: nat)
    ensures x * y >= 0 && (x * y == 0 <==> x == 0 || y == 0)
  {
    if x > 0 && y > 0 {
      MulMono(1, x, y);
    }
  }

  /** What is left when a quotient is cut off is less than the divisor and has the sign of the
      dividend; and only then is it the quotient. */
  lemma {:induction false} TruncatesIff(q: int, x: int, y: int)
    ensures Truncates(q, x, y) <==> (Abs(x - q * y) < Abs(y) && (x >= 0 ==> x - q * y >= 0) && (x <= 0 ==> x - q * y <= 0))
  {
    hide IsQuotient, Abs;
    var p, m := q * y, Abs(q) * Abs(y);
    AbsProduct(q, y);
    Positive(Abs(q), Abs(y));
    QuotientForm(Abs(x), Abs(y), Abs(q), m);
    TruncatesFrom(q, x, y, p, m);
  }

  lemma {:induction false} QuotientForm(u: nat, v: nat, q: nat, m: nat)
    requires m == q * v
    ensures IsQuotient(u, v, q) <==> m <= u < m + v
    ensures q != 0 ==> m >= v
  {
    assert (q + 1) * v == q * v + v;
    if q != 0 {
      MulMono(1, q, v);
    }
  }

  lemma {:induction false} TruncatesFrom(q: int, x: int, y: int, p: int, m: nat)
    requires Abs(p) == m && (p < 0 <==> (q != 0 && y != 0 && (q < 0) != (y < 0))) && (m == 0 <==> Abs(q) == 0 || Abs(y) == 0)
    requires q != 0 ==> m >= Abs(y)
    ensures (m <= Abs(x) < m + Abs(y) && (q != 0 ==> (q < 0 <==> ((x < 0) != (y < 0)))))
      <==> (Abs(x - p) < Abs(y) && (x >= 0 ==> x - p >= 0) && (x <= 0 ==> x - p <= 0))
  {
  }

  /** A factor common to both sides does not change the quotient. */
  lemma {:induction false} CommonFactor(u: nat, v: nat, q: nat, p: nat)
    requires IsQuotient(u, v, q) && p > 0
    ensures IsQuotient(u * p, v * p, q)
  {
    MulMono(q * v, u, p);
    MulNext(u, (q + 1) * v, p);
    assert q * v * p == q * (v * p) && (q + 1) * v * p == (q + 1) * (v * p);
  }

  /** Dividing twice, each time cutting off, is dividing once by the product. */
  lemma {:induction false} DividedTwice(u: nat, v: nat, w: nat, t: nat, q: nat)
    requires IsQuotient(u, v, t) && IsQuotient(t, w, q)
    ensures IsQuotient(u, w * v, q)
  {
    MulMono(q * w, t, v);
    MulMono(t + 1, (q + 1) * w, v);
    assert q * w * v == q * (w * v) && (q + 1) * w * v == (q + 1) * (w * v);
  }

  lemma {:induction false} ExactQuotient(u: nat, v: nat, q: nat)
    requires v > 0 && u == q * v
    ensures IsQuotient(u, v, q)
  {
    assert (q + 1) * v == q * v + v;
  }
}
