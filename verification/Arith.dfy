/** Facts about products, quotients and remainders that the solver does not find by itself. */
module Arith {

  function Max(x: int, y: int): int
  {
    if x > y then x else y
  }

  lemma {:induction false} MulMono(a: int, b: int, c: int)
    requires a <= b && 0 <= c
    ensures a * c <= b * c && c * a <= c * b
  {
    assert (b - a) * c >= 0;
  }

  lemma {:induction false} MulNext(a: int, b: int, c: int)
    requires a < b && 0 <= c
    ensures a * c + c <= b * c && c * a + c <= c * b
  {
    MulMono(a + 1, b, c);
    assert (a + 1) * c == a * c + c;
  }

  lemma {:induction false} DivUnique(v: int, d: int, q: int, r: int)
    requires d > 0 && v == d * q + r && 0 <= r < d
    ensures v / d == q && v % d == r
  {
    assert v == d * (v / d) + v % d;
    if v / d < q { MulNext(v / d, q, d); }
    if q < v / d { MulNext(q, v / d, d); }
  }

  // ---- places in a window of 32768 bytes ----

  lemma {:induction false} WindowSlotsDiffer(p: nat, q: nat)
    requires p < q < p + 32768
    ensures p % 32768 != q % 32768
  {
  }

  lemma {:induction false} SlotOf(base: nat, i: nat)
    requires base % 32768 == 0
    ensures (base + i) % 32768 == i % 32768
  {
  }
}
