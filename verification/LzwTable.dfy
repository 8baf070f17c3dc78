/** lzw_compress's table of strings: open addressing with a second step that depends on the first
    place.  It agrees with the list of entries, and every search comes to an end. */
module LzwTable {
  import opened Arith
  import opened Bits
  import opened Crc
  import opened LzwFormat

  const HSIZE := 69001

  // ---- the places of a search ----

  /** HSIZE is a prime. */
  lemma {:induction false} HsizeIsPrime(d: nat)
    requires 2 <= d < HSIZE
    ensures HSIZE % d != 0
  {
  }

  lemma {:induction false} RemainderStep(a: nat, k: nat, t: int, q: nat, r: nat)
    requires k * a == HSIZE * t && HSIZE == q * k + r
    ensures r * a == HSIZE * (a - q * t)
  {
    assert HSIZE * a == (q * k) * a + r * a;
    assert (q * k) * a == q * (k * a) == q * (HSIZE * t) == HSIZE * (q * t);
  }

  /** Fewer than HSIZE steps of the same size do not come back to the start. */
  lemma {:induction false} NoWrap(a: nat, k: nat, t: int)
    requires 0 < a < HSIZE && 0 < k < HSIZE
    ensures k * a != HSIZE * t
    decreases k
  {
    if k * a == HSIZE * t {
      var q, r := HSIZE / k, HSIZE % k;
      if r == 0 {
        if k > 1 {
          HsizeIsPrime(k);
        }
      } else {
        RemainderStep(a, k, t, q, r);
        NoWrap(a, r, a - q * t);
      }
    }
  }

  function Back(i: nat, disp: nat): (r: nat)
    requires i < HSIZE && 0 < disp <= HSIZE
    ensures r < HSIZE
  {
    if i < disp then i + HSIZE - disp else i - disp
  }

  /** Where the search is after j steps. */
  function Slot(home: nat, j: nat): (s: nat)
    requires home < HSIZE
    ensures s < HSIZE
  {
    if j == 0 then home else Back(Slot(home, j - 1), Step(home))
  }

  function Step(home: nat): (d: nat)
    requires home < HSIZE
    ensures 0 < d < HSIZE
  {
    if home == 0 then 1 else HSIZE - home
  }

  /** How often the search has gone round. */
  function Rounds(home: nat, j: nat): nat
    requires home < HSIZE
  {
    if j == 0 then 0 else Rounds(home, j - 1) + if Slot(home, j - 1) < Step(home) then 1 else 0
  }

  lemma {:induction false} SlotSum(home: nat, j: nat)
    requires home < HSIZE
    ensures Slot(home, j) == home - j * Step(home) + HSIZE * Rounds(home, j)
  {
    if j > 0 {
      SlotSum(home, j - 1);
      assert j * Step(home) == (j - 1) * Step(home) + Step(home);
    }
  }

  /** The first HSIZE places of a search are all different. */
  lemma {:induction false} SlotsDiffer(home: nat, i: nat, j: nat)
    requires home < HSIZE && i < j < HSIZE
    ensures Slot(home, i) != Slot(home, j)
  {
    hide Slot, Rounds;
    SlotSum(home, i);
    SlotSum(home, j);
    var d, x, y := Step(home), Rounds(home, i), Rounds(home, j);
    if Slot(home, i) == Slot(home, j) {
      Difference(i, j, d, x, y);
      NoWrap(d, j - i, y - x);
    }
  }

  lemma {:induction false} Difference(i: int, j: int, d: int, x: int, y: int)
    requires HSIZE * x - i * d == HSIZE * y - j * d
    ensures (j - i) * d == HSIZE * (y - x)
  {
    assert (j - i) * d == j * d - i * d;
  }

  /** The places of the first j steps. */
  ghost function Visited(home: nat, j: nat): set<nat>
    requires home < HSIZE
  {
    if j == 0 then {} else Visited(home, j - 1) + {Slot(home, j - 1)}
  }

  lemma {:induction false} WhenVisited(home: nat, j: nat, s: nat) returns (i: nat)
    requires home < HSIZE && s in Visited(home, j)
    ensures i < j && Slot(home, i) == s
  {
    if s in Visited(home, j - 1) {
      i := WhenVisited(home, j - 1, s);
    } else {
      i := j - 1;
    }
  }

  lemma {:induction false} VisitedSize(home: nat, j: nat)
    requires home < HSIZE && j <= HSIZE
    ensures |Visited(home, j)| == j
  {
    hide Slot;
    if j > 0 {
      VisitedSize(home, j - 1);
      if Slot(home, j - 1) in Visited(home, j - 1) {
        var i := WhenVisited(home, j - 1, Slot(home, j - 1));
        SlotsDiffer(home, i, j - 1);
      }
    }
  }

  // ---- the table ----

  /** The number by which an entry is known; prefixes are less than max. */
  function Key(max: nat, e: Entry): nat
  {
    e.suffix * max + e.prefix
  }

  lemma {:induction false} KeyInjective(max: nat, e: Entry, f: Entry)
    requires e.prefix < max && f.prefix < max && Key(max, e) == Key(max, f)
    ensures e == f
  {
    if e.suffix < f.suffix {
      MulNext(e.suffix, f.suffix, max);
    } else if f.suffix < e.suffix {
      MulNext(f.suffix, e.suffix, max);
    }
  }

  /** The exclusive or of two numbers of 16 bits. */
  function Xor16(a: nat, b: nat): (r: nat)
    ensures r < 0x1_0000
  {
    var s := Xor(ToBits(a, 16), ToBits(b, 16));
    ToFromBits(s);
    Pow2Values();
    FromBits(s)
  }

  function Home(e: Entry): (h: nat)
    ensures h < HSIZE
  {
    Xor16(e.suffix * 256, e.prefix) % HSIZE
  }

  /** Entry i of the dictionary, code FIRST + i, stands at slot s, after steps that are all taken. */
  ghost predicate Placed(max: nat, htab: seq<int>, codetab: seq<nat>, e: Entry, i: nat, s: nat, steps: nat)
  {
    && |htab| == |codetab| == HSIZE && s < HSIZE && s == Slot(Home(e), steps)
    && htab[s] == Key(max, e) && codetab[s] == FIRST + i
    && forall j :: 0 <= j < steps ==> htab[Slot(Home(e), j)] >= 0
  }

  /** The table agrees with the dictionary. */
  ghost predicate Agrees(max: nat, htab: seq<int>, codetab: seq<nat>, dict: seq<Entry>, where: seq<nat>, steps: seq<nat>, owner: seq<int>)
  {
    && |htab| == |codetab| == |owner| == HSIZE && |where| == |steps| == |dict| < HSIZE - 1
    && (forall i :: 0 <= i < |dict| ==> dict[i].prefix < max && Placed(max, htab, codetab, dict[i], i, where[i], steps[i]))
    && (forall s :: 0 <= s < HSIZE && htab[s] >= 0 ==> 0 <= owner[s] < |dict| && where[owner[s]] == s)
  }

  lemma {:induction false} Sizes(max: nat, htab: seq<int>, codetab: seq<nat>, dict: seq<Entry>, where: seq<nat>, steps: seq<nat>, owner: seq<int>)
    requires Agrees(max, htab, codetab, dict, where, steps, owner)
    ensures |htab| == |codetab| == |owner| == HSIZE && |where| == |steps| == |dict| < HSIZE - 1
  {
  }

  lemma {:induction false} FoundEntry(max: nat, htab: seq<int>, codetab: seq<nat>, dict: seq<Entry>, where: seq<nat>, steps: seq<nat>, owner: seq<int>,
                                      e: Entry, s: nat) returns (i: nat)
    requires Agrees(max, htab, codetab, dict, where, steps, owner) && s < HSIZE && e.prefix < max && htab[s] == Key(max, e)
    ensures i < |dict| && dict[i] == e && codetab[s] == FIRST + i
  {
    i := owner[s];
    assert Placed(max, htab, codetab, dict[i], i, where[i], steps[i]);
    KeyInjective(max, e, dict[i]);
  }

  /** The first j places of the search for e are taken, but not by e. */
  ghost predicate Searched(max: nat, htab: seq<int>, e: Entry, j: nat)
  {
    |htab| == HSIZE && forall k :: 0 <= k < j ==> htab[Slot(Home(e), k)] >= 0 && htab[Slot(Home(e), k)] != Key(max, e)
  }

  lemma {:induction false} SearchedMore(max: nat, htab: seq<int>, codetab: seq<nat>, dict: seq<Entry>, where: seq<nat>, steps: seq<nat>, owner: seq<int>,
                                        e: Entry, j: nat, s: nat)
    requires Agrees(max, htab, codetab, dict, where, steps, owner) && Searched(max, htab, e, j) && j <= |dict|
    requires s == Slot(Home(e), j) && htab[s] >= 0 && htab[s] != Key(max, e)
    ensures j + 1 <= |dict| && Searched(max, htab, e, j + 1)
    ensures Slot(Home(e), j + 1) == Back(s, Step(Home(e)))
  {
    hide Placed, Xor16, Home, Key;
    forall k | 0 <= k < j + 1 ensures htab[Slot(Home(e), k)] >= 0 && htab[Slot(Home(e), k)] != Key(max, e) {
    }
    SearchEnds(max, htab, codetab, dict, where, steps, owner, Home(e), j + 1);
  }

  /** A search that ends at a free place was for an entry that is not there. */
  lemma {:induction false} NotThere(max: nat, htab: seq<int>, codetab: seq<nat>, dict: seq<Entry>, where: seq<nat>, steps: seq<nat>, owner: seq<int>,
                                    e: Entry, j: nat)
    requires Agrees(max, htab, codetab, dict, where, steps, owner)
    requires Searched(max, htab, e, j) && htab[Slot(Home(e), j)] < 0
    ensures e !in dict
  {
    forall i | 0 <= i < |dict| ensures dict[i] != e {
    }
  }

  /** The taken slots. */
  ghost function Taken(where: seq<nat>, n: nat): (t: set<nat>)
    requires n <= |where|
    ensures |t| <= n && forall i :: 0 <= i < n ==> where[i] in t
  {
    if n == 0 then {} else Taken(where, n - 1) + {where[n - 1]}
  }

  /** A search meets no more taken slots than there are entries. */
  lemma {:induction false} SearchEnds(max: nat, htab: seq<int>, codetab: seq<nat>, dict: seq<Entry>, where: seq<nat>, steps: seq<nat>, owner: seq<int>,
                                      home: nat, j: nat)
    requires Agrees(max, htab, codetab, dict, where, steps, owner) && home < HSIZE && j <= HSIZE
    requires forall k :: 0 <= k < j ==> htab[Slot(home, k)] >= 0
    ensures j <= |dict|
  {
    VisitedSize(home, j);
    var t := Taken(where, |where|);
    forall s | s in Visited(home, j) ensures s in t {
      var k := WhenVisited(home, j, s);
      assert where[owner[s]] in t;
    }
    SubsetSize(Visited(home, j), t);
  }

  lemma {:induction false} SubsetSize(a: set<nat>, b: set<nat>)
    requires a <= b
    ensures |a| <= |b|
  {
    if a != {} {
      var x :| x in a;
      SubsetSize(a - {x}, b - {x});
    }
  }

  lemma {:induction false} KeyIsNat(max: nat, e: Entry)
    ensures Key(max, e) >= 0
  {
    MulMono(0, e.suffix, max);
  }

  /** A new entry at the free place where the search for it ended. */
  lemma {:induction false} AddedEntry(max: nat, htab: seq<int>, codetab: seq<nat>, dict: seq<Entry>, where: seq<nat>, steps: seq<nat>, owner: seq<int>,
                                      e: Entry, j: nat, s: nat)
    requires Agrees(max, htab, codetab, dict, where, steps, owner) && |dict| < HSIZE - 2 && e.prefix < max
    requires s == Slot(Home(e), j) && htab[s] < 0 && forall k :: 0 <= k < j ==> htab[Slot(Home(e), k)] >= 0
    ensures Agrees(max, htab[s := Key(max, e)], codetab[s := FIRST + |dict|], dict + [e], where + [s], steps + [j], owner[s := |dict|])
  {
    KeyIsNat(max, e);
    var h, c, d, w, p := htab[s := Key(max, e)], codetab[s := FIRST + |dict|], dict + [e], where + [s], steps + [j];
    forall i | 0 <= i < |d| ensures d[i].prefix < max && Placed(max, h, c, d[i], i, w[i], p[i]) {
      if i < |dict| {
        StillPlaced(max, htab, codetab, dict[i], i, where[i], steps[i], s, Key(max, e), FIRST + |dict|);
      }
    }
  }

  lemma {:induction false} StillPlaced(max: nat, htab: seq<int>, codetab: seq<nat>, e: Entry, i: nat, t: nat, steps: nat, s: nat, key: nat, code: nat)
    requires Placed(max, htab, codetab, e, i, t, steps) && s < HSIZE && htab[s] < 0
    ensures Placed(max, htab[s := key], codetab[s := code], e, i, t, steps)
  {
    KeyIsNat(max, e);
  }

  lemma {:induction false} FirstSlot(e: Entry)
    ensures Slot(Home(e), 0) == Home(e)
  {
  }

  class LzwTable {
    const max: nat
    const htab: array<int>
    const codetab: array<nat>
    /** The strings that have codes, from FIRST on. */
    ghost var dict: seq<Entry>
    ghost var where: seq<nat>
    ghost var steps: seq<nat>
    ghost var owner: seq<int>

    ghost predicate Valid()
      reads this, htab, codetab
    {
      Agrees(max, htab[..], codetab[..], dict, where, steps, owner)
    }

    constructor (max: nat)
      ensures Valid() && dict == [] && this.max == max && fresh(htab) && fresh(codetab)
    {
      this.max := max;
      htab := new int[HSIZE](_ => -1);
      codetab := new nat[HSIZE];
      dict, where, steps, owner := [], [], [], Repeat(-1, HSIZE);
    }

    /** The code of prefix and c, or the free place for it. */
    method Find(prefix: nat, c: byte) returns (found: bool, slot: nat, code: nat, ghost j: nat)
      requires Valid() && prefix < max
      ensures slot < HSIZE
      ensures found ==> FIRST <= code < FIRST + |dict| && dict[code - FIRST] == Entry(prefix, c)
      ensures !found ==> Entry(prefix, c) !in dict && Free(Entry(prefix, c), slot, j)
    {
      hide Slot, Placed, Xor16;
      ghost var e := Entry(prefix, c);
      var fcode := c * max + prefix;
      slot := Xor16(c * 256, prefix) % HSIZE;
      var disp := if slot == 0 then 1 else HSIZE - slot;
      j := 0;
      KeyIsNat(max, e);
      FirstSlot(e);
      while htab[slot] >= 0 && htab[slot] != fcode
        invariant slot < HSIZE && slot == Slot(Home(e), j) && j <= |dict|
        invariant Searched(max, htab[..], e, j)
        decreases |dict| - j
      {
        SearchedMore(max, htab[..], codetab[..], dict, where, steps, owner, e, j, slot);
        slot := if slot < disp then slot + HSIZE - disp else slot - disp;
        j := j + 1;
      }
      found := htab[slot] == fcode;
      if found {
        ghost var i := FoundEntry(max, htab[..], codetab[..], dict, where, steps, owner, e, slot);
      } else {
        NotThere(max, htab[..], codetab[..], dict, where, steps, owner, e, j);
      }
      code := codetab[slot];
    }

    /** The search for e ends at the free place s. */
    ghost predicate Free(e: Entry, s: nat, j: nat)
      reads htab
    {
      && htab.Length == HSIZE && s == Slot(Home(e), j) && htab[s] < 0
      && forall k :: 0 <= k < j ==> htab[Slot(Home(e), k)] >= 0
    }

    method Add(prefix: nat, c: byte, slot: nat, code: nat, ghost j: nat)
      requires Valid() && code == FIRST + |dict| && prefix < max && Free(Entry(prefix, c), slot, j) && |dict| < HSIZE - 2
      modifies this`dict, this`where, this`steps, this`owner, htab, codetab
      ensures Valid() && dict == old(dict) + [Entry(prefix, c)]
    {
      hide Agrees, Slot, Home;
      ghost var h, k := htab[..], codetab[..];
      Sizes(max, h, k, dict, where, steps, owner);
      AddedEntry(max, h, k, dict, where, steps, owner, Entry(prefix, c), j, slot);
      codetab[slot] := code;
      htab[slot] := c * max + prefix;
      assert codetab[..] == k[slot := code] && htab[..] == h[slot := Key(max, Entry(prefix, c))];
      dict, where, steps, owner := dict + [Entry(prefix, c)], where + [slot], steps + [j], owner[slot := |dict|];
    }

    method Clear()
      requires Valid()
      modifies this`dict, this`where, this`steps, this`owner, htab
      ensures Valid() && dict == []
    {
      forall i | 0 <= i < HSIZE {
        htab[i] := -1;
      }
      dict, where, steps, owner := [], [], [], Repeat(-1, HSIZE);
    }
  }
}
