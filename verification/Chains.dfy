/** gzip.c's hash chains: for each hash the last position with it, and for each recent position the
    one before it. */
module Chains {
  import opened Arith
  import opened Bits
  import opened Crc
  import opened Window

  /** One byte more in a hash of 15 bits. */
  function HashStep(h: seq<bool>, c: byte): (r: seq<bool>)
    requires |h| == 15
    ensures |r| == 15
  {
    Xor(Repeat(false, 5) + h[..10], ToBits(c, 15))
  }

  function Hash(a: byte, b: byte, c: byte): (h: nat)
    ensures h < HSIZE
  {
    var h := HashStep(HashStep(HashStep(Repeat(false, 15), a), b), c);
    ToFromBits(h);
    Pow2Values();
    FromBits(h)
  }

  /** v, with the window at base, is an inserted position before p, or none. */
  ghost predicate Linked(v: int, base: nat, p: nat, ins: set<nat>)
  {
    v == NIL || (v >= 0 && base + v in ins && base + v < p)
  }

  ghost predicate HeadsOk(head: seq<int>, base: nat, ins: set<nat>, top: nat)
  {
    |head| == HSIZE && forall h :: 0 <= h < HSIZE ==> Linked(head[h], base, top, ins)
  }

  /** The links of the positions in reach below top are still there. */
  ghost predicate PrevsOk(prev: seq<int>, base: nat, ins: set<nat>, top: nat)
  {
    |prev| == CWSIZE && forall p :: p in ins && p + CWSIZE >= top ==> Linked(prev[p % CWSIZE], base, p, ins)
  }

  ghost predicate Below(ins: set<nat>, top: nat)
  {
    forall p :: p in ins ==> p < top
  }

  function Slid(v: int): int
  {
    if v >= CWSIZE then v - CWSIZE else NIL
  }

  lemma {:induction false} SlidLinked(v: int, base: nat, p: nat, ins: set<nat>)
    requires Linked(v, base, p, ins)
    ensures Linked(Slid(v), base + CWSIZE, p, ins)
  {
  }

  lemma {:induction false} LinkedMore(v: int, base: nat, p: nat, ins: set<nat>, q: nat, ins': set<nat>)
    requires Linked(v, base, p, ins) && p <= q && ins <= ins'
    ensures Linked(v, base, q, ins')
  {
  }

  lemma {:induction false} InsertedPrevs(prev: seq<int>, base: nat, ins: set<nat>, m: int, pos: nat, q: nat)
    requires PrevsOk(prev, base, ins, q) && q == base + pos && base % CWSIZE == 0 && Linked(m, base, q, ins) && Below(ins, q)
    ensures PrevsOk(prev[pos % CWSIZE := m], base, ins + {q}, q + 1)
  {
    var prev' := prev[pos % CWSIZE := m];
    SlotOf(base, pos);
    forall p | p in ins + {q} && p + CWSIZE >= q + 1
      ensures Linked(prev'[p % CWSIZE], base, p, ins + {q})
    {
      if p == q {
        LinkedMore(m, base, q, ins, q, ins + {q});
      } else {
        WindowSlotsDiffer(p, q);
        LinkedMore(prev[p % CWSIZE], base, p, ins, p, ins + {q});
      }
    }
  }

  lemma {:induction false} InsertedHeads(head: seq<int>, base: nat, ins: set<nat>, h: nat, pos: nat, q: nat)
    requires HeadsOk(head, base, ins, q) && q == base + pos && h < HSIZE
    ensures HeadsOk(head[h := pos], base, ins + {q}, q + 1)
  {
    var head' := head[h := pos];
    forall i | 0 <= i < HSIZE
      ensures Linked(head'[i], base, q + 1, ins + {q})
    {
      if i != h {
        LinkedMore(head[i], base, q, ins, q + 1, ins + {q});
      }
    }
  }

  class Chains {
    const head: array<int>
    const prev: array<int>
    ghost var base: nat
    /** The positions in the input that have been inserted, all before top. */
    ghost var ins: set<nat>
    ghost var top: nat

    ghost predicate Valid()
      reads this, head, prev
    {
      && head != prev && head.Length == HSIZE && prev.Length == CWSIZE && base % CWSIZE == 0
      && Below(ins, top) && HeadsOk(head[..], base, ins, top) && PrevsOk(prev[..], base, ins, top)
    }

    /** prev starts with whatever it held. */
    constructor ()
      ensures Valid() && fresh(head) && fresh(prev) && base == 0 && top == 0
    {
      head := new int[HSIZE](_ => NIL);
      prev := new int[CWSIZE];
      base, ins, top := 0, {}, 0;
    }

    /** The last position with the same hash. */
    method Insert(h: nat, pos: nat) returns (m: int)
      requires Valid() && h < HSIZE && base + pos >= top
      modifies this`ins, this`top, head, prev
      ensures Valid() && top == base + pos + 1
      ensures m == NIL || (0 <= m < pos && base + m in ins)
    {
      TopMore(head[..], prev[..], base, ins, top, base + pos);
      ghost var h0, p0 := head[..], prev[..];
      m := head[h];
      prev[pos % CWSIZE] := m;
      head[h] := pos;
      InsertedHeads(h0, base, ins, h, pos, base + pos);
      InsertedPrevs(p0, base, ins, m, pos, base + pos);
      ins := ins + {base + pos};
      top := base + pos + 1;
    }

    /** The position before one in reach. */
    method Previous(cur: nat) returns (c: int)
      requires Valid() && base + cur in ins && base + cur + CWSIZE >= top
      ensures c == NIL || (0 <= c < cur && base + c in ins)
      ensures c == prev[cur % CWSIZE]
    {
      SlotOf(base, cur);
      c := prev[cur % CWSIZE];
      assert Linked(prev[..][(base + cur) % CWSIZE], base, base + cur, ins);
    }

    method Slide()
      requires Valid()
      modifies this`base, head, prev
      ensures Valid() && base == old(base) + CWSIZE
    {
      hide HeadsOk, PrevsOk, Below, Slid;
      ghost var h0, p0 := head[..], prev[..];
      forall i | 0 <= i < HSIZE {
        head[i] := Slid(head[i]);
      }
      forall i | 0 <= i < CWSIZE {
        prev[i] := Slid(prev[i]);
      }
      SlidAll(h0, p0, head[..], prev[..], base, ins, top);
      base := base + CWSIZE;
    }
  }

  lemma {:induction false} TopMore(head: seq<int>, prev: seq<int>, base: nat, ins: set<nat>, top: nat, q: nat)
    requires Below(ins, top) && HeadsOk(head, base, ins, top) && PrevsOk(prev, base, ins, top) && top <= q
    ensures Below(ins, q) && HeadsOk(head, base, ins, q) && PrevsOk(prev, base, ins, q)
  {
  }

  lemma {:induction false} SlidAll(head: seq<int>, prev: seq<int>, head': seq<int>, prev': seq<int>, base: nat, ins: set<nat>, top: nat)
    requires HeadsOk(head, base, ins, top) && PrevsOk(prev, base, ins, top) && |head'| == HSIZE && |prev'| == CWSIZE
    requires forall i :: 0 <= i < HSIZE ==> head'[i] == Slid(head[i])
    requires forall i :: 0 <= i < CWSIZE ==> prev'[i] == Slid(prev[i])
    ensures HeadsOk(head', base + CWSIZE, ins, top) && PrevsOk(prev', base + CWSIZE, ins, top)
  {
    forall h | 0 <= h < HSIZE ensures Linked(head'[h], base + CWSIZE, top, ins) {
      SlidLinked(head[h], base, top, ins);
    }
    forall p | p in ins && p + CWSIZE >= top ensures Linked(prev'[p % CWSIZE], base + CWSIZE, p, ins) {
      SlidLinked(prev[p % CWSIZE], base, p, ins);
    }
  }
}
