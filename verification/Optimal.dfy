/** No prefix code is shorter than Huffman's: a lower bound for the lengths of any code, found along
    the joins that made the tree. */
module Optimal {
  import opened Arith
  import opened Bits
  import opened Kraft
  import opened HuffmanTree

  // ---- sums over a set of nodes ----

  /** What the nodes cost with these lengths. */
  ghost function Cost(C: set<nat>, w: seq<nat>, L: seq<nat>, n: nat): nat
    requires n <= |w| && n <= |L|
  {
    if n == 0 then 0 else Cost(C, w, L, n - 1) + if n - 1 in C then w[n - 1] * L[n - 1] else 0
  }

  ghost predicate Within(C: set<nat>, L: seq<nat>, T: nat)
  {
    forall x :: x in C ==> x < |L| && L[x] <= T
  }

  /** How much of the code space the lengths take, in units of 2^-T. */
  ghost function Space(C: set<nat>, L: seq<nat>, T: nat, n: nat): nat
    requires n <= |L| && Within(C, L, T)
  {
    if n == 0 then 0 else Space(C, L, T, n - 1) + if n - 1 in C then Pow2(T - L[n - 1]) else 0
  }

  lemma {:induction false} CostSet(C: set<nat>, w: seq<nat>, L: seq<nat>, n: nat, x: nat, v: nat)
    requires n <= |w| && n <= |L| && x < |L| && x < |w| && x in C
    ensures Cost(C, w, L[x := v], n) == Cost(C, w, L, n) + if x < n then w[x] * v - w[x] * L[x] else 0
  {
    if n > 0 {
      CostSet(C, w, L, n - 1, x, v);
    }
  }

  lemma {:induction false} SpaceSet(C: set<nat>, L: seq<nat>, T: nat, n: nat, x: nat, v: nat)
    requires n <= |L| && Within(C, L, T) && x < |L| && x in C && v <= T
    ensures Within(C, L[x := v], T)
    ensures Space(C, L[x := v], T, n) == Space(C, L, T, n) + if x < n then Pow2(T - v) - Pow2(T - L[x]) else 0
  {
    hide Pow2;
    if n > 0 {
      SpaceSet(C, L, T, n - 1, x, v);
    }
  }

  lemma {:induction false} CostWithout(C: set<nat>, w: seq<nat>, L: seq<nat>, n: nat, x: nat)
    requires n <= |w| && n <= |L| && x < |L| && x < |w| && x in C
    ensures Cost(C, w, L, n) == Cost(C - {x}, w, L, n) + if x < n then w[x] * L[x] else 0
  {
    if n > 0 {
      CostWithout(C, w, L, n - 1, x);
    }
  }

  lemma {:induction false} SpaceWithout(C: set<nat>, L: seq<nat>, T: nat, n: nat, x: nat)
    requires n <= |L| && Within(C, L, T) && x in C
    ensures Space(C, L, T, n) == Space(C - {x}, L, T, n) + if x < n then Pow2(T - L[x]) else 0
  {
    hide Pow2;
    if n > 0 {
      SpaceWithout(C, L, T, n - 1, x);
    }
  }

  /** Only the nodes of the set matter. */
  lemma {:induction false} SameOn(C: set<nat>, w: seq<nat>, L: seq<nat>, M: seq<nat>, T: nat, n: nat)
    requires n <= |w| && n <= |L| == |M| && Within(C, L, T) && forall x :: x in C ==> x < |L| && M[x] == L[x]
    ensures Within(C, M, T) && Cost(C, w, M, n) == Cost(C, w, L, n) && Space(C, M, T, n) == Space(C, L, T, n)
  {
    hide Pow2;
    if n > 0 {
      SameOn(C, w, L, M, T, n - 1);
    }
  }

  // ---- the longest lengths ----

  /** When no length is T, the space is twice that in the next larger units. */
  lemma {:induction false} NoneLongest(C: set<nat>, L: seq<nat>, T: nat, n: nat)
    requires n <= |L| && T > 0 && Within(C, L, T - 1)
    ensures Within(C, L, T) && Space(C, L, T, n) == 2 * Space(C, L, T - 1, n)
  {
    if n > 0 {
      NoneLongest(C, L, T, n - 1);
      if n - 1 in C {
        assert Pow2(T - L[n - 1]) == 2 * Pow2(T - 1 - L[n - 1]);
      }
    }
  }

  /** With one length of T, the space is odd. */
  lemma {:induction false} OneLongest(C: set<nat>, L: seq<nat>, T: nat, x: nat)
    requires T > 0 && x in C && Within(C, L, T) && L[x] == T && Within(C - {x}, L, T - 1)
    requires Space(C, L, T, |L|) <= Pow2(T)
    ensures Within(C, L[x := T - 1], T - 1) && Space(C, L[x := T - 1], T - 1, |L|) <= Pow2(T - 1)
  {
    var M := L[x := T - 1];
    SpaceWithout(C, L, T, |L|, x);
    NoneLongest(C - {x}, L, T, |L|);
    assert Pow2(T) == 2 * Pow2(T - 1) && Pow2(0) == 1;
    SpaceSet(C, L, T, |L|, x, T - 1);
    assert Pow2(1) == 2;
    NoneLongest(C, M, T, |L|);
  }

  // ---- lengths for the two lightest ----

  /** The lengths of two nodes exchanged. */
  lemma {:induction false} Exchange(C: set<nat>, w: seq<nat>, L: seq<nat>, T: nat, a: nat, x: nat) returns (M: seq<nat>)
    requires |w| == |L| && Within(C, L, T) && a in C && x in C && a != x && w[a] <= w[x] && L[a] <= L[x]
    ensures M == L[a := L[x]][x := L[a]] && Within(C, M, T) && Space(C, M, T, |L|) == Space(C, L, T, |L|)
    ensures Cost(C, w, M, |L|) <= Cost(C, w, L, |L|)
  {
    hide Pow2;
    var K := L[a := L[x]];
    M := K[x := L[a]];
    CostSet(C, w, L, |L|, a, L[x]);
    CostSet(C, w, K, |L|, x, L[a]);
    SpaceSet(C, L, T, |L|, a, L[x]);
    SpaceSet(C, K, T, |L|, x, L[a]);
    ExchangeSaves(w[a], w[x], L[a], L[x]);
  }

  lemma {:induction false} ExchangeSaves(wa: nat, wx: nat, la: nat, lx: nat)
    requires wa <= wx && la <= lx
    ensures wa * lx - wa * la + (wx * la - wx * lx) <= 0
  {
    MulMono(wa, wx, lx - la);
    assert wa * (lx - la) == wa * lx - wa * la;
    assert wx * (lx - la) == wx * lx - wx * la;
  }

  /** With two of the longest length, the two lightest can have it. */
  lemma {:induction false} LightestLongest(C: set<nat>, w: seq<nat>, L: seq<nat>, T: nat, a: nat, b: nat, x: nat, y: nat) returns (M: seq<nat>)
    requires |w| == |L| && Within(C, L, T) && Lightest(w, C, a, b)
    requires x in C && y in C && x != y && L[x] == T && L[y] == T
    ensures |M| == |L| && Within(C, M, T) && M[a] == T && M[b] == T
    ensures Space(C, M, T, |L|) == Space(C, L, T, |L|) && Cost(C, w, M, |L|) <= Cost(C, w, L, |L|)
  {
    hide Pow2, Cost, Space;
    var K, x', y' := L, x, y;
    if x == b {
      x', y' := y, x;
    }
    if L[a] != T {
      K := Exchange(C, w, L, T, a, x');
    } else if a == y' {
      x', y' := y', x';
    }
    // a has the longest length now, and so has y' unless it is a
    M := K;
    if K[b] != T {
      M := Exchange(C, w, K, T, b, y');
    }
  }

  /** Any lengths that fit can be made such that the two lightest nodes have the same, the longest, at
      no more cost. */
  lemma {:induction false} Deepen(C: set<nat>, w: seq<nat>, L: seq<nat>, T: nat, a: nat, b: nat) returns (M: seq<nat>, D: nat)
    requires |w| == |L| && Within(C, L, T) && Space(C, L, T, |L|) <= Pow2(T) && Lightest(w, C, a, b)
    ensures |M| == |L| && Within(C, M, D) && D >= 1 && M[a] == D && M[b] == D
    ensures Space(C, M, D, |L|) <= Pow2(D) && Cost(C, w, M, |L|) <= Cost(C, w, L, |L|)
    decreases T
  {
    hide Cost, Space;
    if T == 0 {
      TwoTooMany(C, L, a, b);
      assert false;
    } else if x :| x in C && L[x] == T {
      if y :| y in C && y != x && L[y] == T {
        M := LightestLongest(C, w, L, T, a, b, x, y);
        D := T;
      } else {
        OneLongest(C, L, T, x);
        CostSet(C, w, L, |L|, x, T - 1);
        MulMono(T - 1, T, w[x]);
        M, D := Deepen(C, w, L[x := T - 1], T - 1, a, b);
      }
    } else {
      NoneLongest(C, L, T, |L|);
      assert Pow2(T) == 2 * Pow2(T - 1);
      M, D := Deepen(C, w, L, T - 1, a, b);
    }
  }

  lemma {:induction false} TwoTooMany(C: set<nat>, L: seq<nat>, a: nat, b: nat)
    requires Within(C, L, 0) && a in C && b in C && a != b
    ensures Space(C, L, 0, |L|) > Pow2(0)
  {
    SpaceWithout(C, L, 0, |L|, a);
    SpaceWithout(C - {a}, L, 0, |L|, b);
    assert Pow2(0) == 1;
  }

  // ---- the bound ----

  /** The depths of all nodes. */
  ghost function AllDepths(t: Forest): (L: seq<nat>)
    requires t.Sized()
    ensures |L| == |t.w| && forall x :: 0 <= x < |L| ==> L[x] == Depth(t.parent, x)
  {
    seq(|t.w|, x requires 0 <= x < |t.w| => Depth(t.parent, x))
  }

  lemma {:induction false} CutIsOpen(f: seq<nat>, t: Forest, root: nat, m: nat)
    requires t.Sized()
    ensures Cut(f, t, root, m) == Open(f, t, {root}, m)
  {
  }

  /** Where the tree was joined, lengths for the nodes before are lengths for those after, which cost
      less by the weight of the new node. */
  lemma {:induction false} JoinLengths(C: set<nat>, D: set<nat>, w: seq<nat>, L: seq<nat>, T: nat, a: nat, b: nat, m: nat) returns (M: seq<nat>)
    requires |w| == |L| && Within(D, L, T) && T >= 1 && a in D && b in D && a != b && L[a] == T && L[b] == T
    requires m < |w| && m !in D && C == D - {a} - {b} + {m} && w[m] == w[a] + w[b]
    ensures M == L[m := T - 1] && Within(C, M, T) && Space(C, M, T, |L|) == Space(D, L, T, |L|)
    ensures Cost(C, w, M, |L|) + w[m] == Cost(D, w, L, |L|)
  {
    hide Cost, Space, Pow2;
    M := L[m := T - 1];
    var E := D - {a} - {b};
    assert C - {m} == E;
    CostWithout(D, w, L, |L|, a);
    CostWithout(D - {a}, w, L, |L|, b);
    SpaceWithout(D, L, T, |L|, a);
    SpaceWithout(D - {a}, L, T, |L|, b);
    SameOn(E, w, L, M, T, |L|);
    CostWithout(C, w, M, |L|, m);
    SpaceWithout(C, M, T, |L|, m);
    JoinNumbers(w[a], w[b], T);
  }

  lemma {:induction false} JoinNumbers(x: nat, y: nat, T: nat)
    requires T >= 1
    ensures (x + y) * (T - 1) + (x + y) == x * T + y * T
    ensures Pow2(T - (T - 1)) == 2 && Pow2(T - T) == 1
  {
    Pow2Values();
    assert (x + y) * T == x * T + y * T;
    assert (x + y) * (T - 1) == (x + y) * T - (x + y);
  }

  /** The depths cost more before a join by the weight of the node it made. */
  lemma {:induction false} JoinDepths(f: seq<nat>, t: Forest, root: nat, B: nat, m: nat)
    requires HuffmanForest(f, t, {root}, B) && |f| <= m < |t.w| && root == |t.w| - 1
    ensures Cost(Cut(f, t, root, m), t.w, AllDepths(t), |t.w|) == Cost(Cut(f, t, root, m + 1), t.w, AllDepths(t), |t.w|) + t.w[m]
  {
    hide Cost, Cut, AllDepths;
    var (a, b) := t.kid[m];
    var C, D, L := Cut(f, t, root, m + 1), Cut(f, t, root, m), AllDepths(t);
    CutStep(f, t, root, B, m);
    assert Inner(f, t, {root}, B, m);
    CutInside(f, t, root, m);
    CutInside(f, t, root, m + 1);
    CostWithout(D, t.w, L, |t.w|, a);
    CostWithout(D - {a}, t.w, L, |t.w|, b);
    CostWithout(C, t.w, L, |t.w|, m);
    KidIsDeeper(f, t, root, B, m);
    DeeperCost(t.w[a], t.w[b], L[m]);
  }

  lemma {:induction false} KidIsDeeper(f: seq<nat>, t: Forest, root: nat, B: nat, m: nat)
    requires HuffmanForest(f, t, {root}, B) && |f| <= m < |t.w|
    ensures t.kid[m].0 != t.kid[m].1 && Depth(t.parent, t.kid[m].0) == Depth(t.parent, m) + 1 && Depth(t.parent, t.kid[m].1) == Depth(t.parent, m) + 1
  {
    assert Inner(f, t, {root}, B, m);
  }

  lemma {:induction false} CutInside(f: seq<nat>, t: Forest, root: nat, m: nat)
    requires t.Sized() && m <= |t.w|
    ensures forall x :: x in Cut(f, t, root, m) ==> x < m
  {
  }

  lemma {:induction false} DeeperCost(x: nat, y: nat, d: nat)
    ensures x * (d + 1) + y * (d + 1) == (x + y) * d + (x + y)
  {
    assert (x + y) * d == x * d + y * d;
  }

  /** The join that made a node. */
  lemma {:induction false} JoinAt(f: seq<nat>, t: Forest, root: nat, B: nat, m: nat, a: nat, b: nat)
    requires HuffmanForest(f, t, {root}, B) && Ordered(f, t, {root}) && |f| <= m < |t.w| && root == |t.w| - 1
    requires a == t.kid[m].0 && b == t.kid[m].1
    ensures forall x :: x in Cut(f, t, root, m) ==> x < |t.w|
    ensures a < |t.w| && b < |t.w| && Lightest(t.w, Cut(f, t, root, m), a, b) && m !in Cut(f, t, root, m)
    ensures Cut(f, t, root, m + 1) == Cut(f, t, root, m) - {a} - {b} + {m} && t.w[m] == t.w[a] + t.w[b]
  {
    hide Cut, Open;
    CutIsOpen(f, t, root, m);
    CutStep(f, t, root, B, m);
    CutInside(f, t, root, m);
    assert Inner(f, t, {root}, B, m);
    CutsMeet(Cut(f, t, root, m + 1), Cut(f, t, root, m), a, b, m);
  }

  /** No lengths that fit cost less than the depths, for the roots at any time. */
  lemma {:induction false} NoCheaper(f: seq<nat>, t: Forest, root: nat, B: nat, m: nat, L: seq<nat>, T: nat)
    requires t.Sized() && HuffmanForest(f, t, {root}, B) && Ordered(f, t, {root}) && |f| <= m <= |t.w| && root == |t.w| - 1 >= |f|
    requires |L| == |t.w| && Within(Cut(f, t, root, m), L, T) && Space(Cut(f, t, root, m), L, T, |L|) <= Pow2(T)
    ensures Cost(Cut(f, t, root, m), t.w, AllDepths(t), |t.w|) <= Cost(Cut(f, t, root, m), t.w, L, |t.w|)
    decreases |t.w| - m
  {
    hide Cost, Space, Pow2, Cut, AllDepths, HuffmanForest, Ordered;
    if m == |t.w| {
      RootCost(f, t, root, B);
    } else {
      var (a, b) := t.kid[m];
      JoinAt(f, t, root, B, m, a, b);
      var M, D := Deepen(Cut(f, t, root, m), t.w, L, T, a, b);
      var N := JoinLengths(Cut(f, t, root, m + 1), Cut(f, t, root, m), t.w, M, D, a, b, m);
      NoCheaper(f, t, root, B, m + 1, N, D);
      JoinDepths(f, t, root, B, m);
    }
  }

  lemma {:induction false} CutsMeet(C: set<nat>, D: set<nat>, a: nat, b: nat, m: nat)
    requires m in C && C - {m} == D - {a} - {b}
    ensures C == D - {a} - {b} + {m}
  {
  }

  lemma {:induction false} RootCost(f: seq<nat>, t: Forest, root: nat, B: nat)
    requires HuffmanForest(f, t, {root}, B) && root == |t.w| - 1 >= |f|
    ensures Cost(Cut(f, t, root, |t.w|), t.w, AllDepths(t), |t.w|) == 0
  {
    var C := Cut(f, t, root, |t.w|);
    assert Live(f, root, |t.w|);
    forall x: nat | x in C ensures x == root {
      assert Live(f, x, |t.w|);
    }
    assert C == {root};
    RootDepth(t, root);
    CostWithout(C, t.w, AllDepths(t), |t.w|, root);
    CostNone(t.w, AllDepths(t), |t.w|);
    assert C - {root} == {};
  }

  lemma {:induction false} CostNone(w: seq<nat>, L: seq<nat>, n: nat)
    requires n <= |w| && n <= |L|
    ensures Cost({}, w, L, n) == 0
  {
    if n > 0 {
      CostNone(w, L, n - 1);
    }
  }

  // ---- codes for symbols ----

  /** How many bits a text takes in which the symbols occur so often. */
  ghost function TotalBits(f: seq<nat>, len: seq<nat>, n: nat): nat
    requires n <= |f| && n <= |len|
  {
    if n == 0 then 0 else TotalBits(f, len, n - 1) + f[n - 1] * len[n - 1]
  }

  /** Kraft's sum over the symbols that occur. */
  ghost function UsedKraft(f: seq<nat>, len: seq<nat>, n: nat): real
    requires n <= |f| && n <= |len|
  {
    if n == 0 then 0.0 else UsedKraft(f, len, n - 1) + if f[n - 1] > 0 then Half(len[n - 1]) else 0.0
  }

  /** The lengths of a code for the symbols that occur. */
  ghost predicate IsCode(f: seq<nat>, len: seq<nat>)
  {
    |len| == |f| && UsedKraft(f, len, |f|) <= 1.0 && forall i :: 0 <= i < |f| && f[i] > 0 ==> len[i] > 0
  }

  /** No code takes fewer bits. */
  ghost predicate Shortest(f: seq<nat>, len: seq<nat>)
  {
    |len| == |f| && forall other: seq<nat> :: IsCode(f, other) ==> TotalBits(f, len, |f|) <= TotalBits(f, other, |f|)
  }

  lemma {:induction false} HalfTimes(d: nat, T: nat)
    requires d <= T
    ensures Half(d) * Pow2(T) as real == Pow2(T - d) as real
  {
    hide Half, Pow2;
    if d == 0 {
      NoHalf();
    } else {
      HalfTimes(d - 1, T);
      HalfAndTwice(d, T - d);
      HalfOf(Half(d - 1), Pow2(T) as real, Pow2(T - d) as real);
    }
  }

  lemma {:induction false} NoHalf()
    ensures Half(0) == 1.0
  {
  }

  lemma {:induction false} HalfAndTwice(d: nat, n: nat)
    requires d > 0
    ensures Half(d) == Half(d - 1) / 2.0 && Pow2(n + 1) == 2 * Pow2(n)
  {
  }

  lemma {:induction false} HalfOf(h: real, p: real, q: real)
    requires h * p == 2.0 * q
    ensures h / 2.0 * p == q
  {
  }

  /** The largest of the lengths, or more. */
  ghost function Longest(L: seq<nat>): (T: nat)
    ensures forall i :: 0 <= i < |L| ==> L[i] <= T
  {
    if L == [] then 0 else
      var T := Longest(L[..|L| - 1]);
      assert forall i :: 0 <= i < |L| - 1 ==> L[i] == L[..|L| - 1][i];
      if L[|L| - 1] > T then L[|L| - 1] else T
  }

  /** Sums over the symbols as sums over the nodes. */
  lemma {:induction false} SymbolSums(f: seq<nat>, C: set<nat>, w: seq<nat>, L: seq<nat>, len: seq<nat>, T: nat, n: nat)
    requires n <= |f| <= |w| && |len| == |f| <= |L| && Within(C, L, T)
    requires forall i :: 0 <= i < |f| ==> w[i] == f[i] && (i in C <==> f[i] > 0) && (f[i] > 0 ==> L[i] == len[i])
    ensures Cost(C, w, L, n) == TotalBits(f, len, n)
    ensures Space(C, L, T, n) as real == UsedKraft(f, len, n) * Pow2(T) as real
  {
    hide Pow2, Half, Cost, Space, TotalBits, UsedKraft;
    if n == 0 {
      NoSums(f, C, w, L, len, T);
    } else {
      var i := n - 1;
      SymbolSums(f, C, w, L, len, T, i);
      NextSums(f, C, w, L, len, T, i);
      if f[i] > 0 {
        HalfTimes(len[i], T);
        SpaceStep(Space(C, L, T, i), Pow2(T - len[i]), UsedKraft(f, len, i), Half(len[i]), Pow2(T) as real);
      }
    }
  }

  lemma {:induction false} NoSums(f: seq<nat>, C: set<nat>, w: seq<nat>, L: seq<nat>, len: seq<nat>, T: nat)
    requires |f| <= |w| && |len| == |f| <= |L| && Within(C, L, T)
    ensures Cost(C, w, L, 0) == TotalBits(f, len, 0) == 0 && Space(C, L, T, 0) == 0 && UsedKraft(f, len, 0) == 0.0
  {
  }

  /** One symbol more in each of the sums. */
  lemma {:induction false} NextSums(f: seq<nat>, C: set<nat>, w: seq<nat>, L: seq<nat>, len: seq<nat>, T: nat, i: nat)
    requires i < |f| <= |w| && |len| == |f| <= |L| && Within(C, L, T)
    requires w[i] == f[i] && (i in C <==> f[i] > 0) && (f[i] > 0 ==> L[i] == len[i])
    ensures Cost(C, w, L, i + 1) - Cost(C, w, L, i) == TotalBits(f, len, i + 1) - TotalBits(f, len, i)
    ensures f[i] > 0 ==> len[i] <= T && Space(C, L, T, i + 1) == Space(C, L, T, i) + Pow2(T - len[i])
    ensures f[i] > 0 ==> UsedKraft(f, len, i + 1) == UsedKraft(f, len, i) + Half(len[i])
    ensures f[i] == 0 ==> Space(C, L, T, i + 1) == Space(C, L, T, i) && UsedKraft(f, len, i + 1) == UsedKraft(f, len, i)
  {
    hide Pow2, Half;
  }

  lemma {:induction false} SpaceStep(s: nat, p: nat, kraft: real, half: real, full: real)
    requires s as real == kraft * full && p as real == half * full
    ensures (s + p) as real == (kraft + half) * full
  {
  }

  lemma {:induction false} NoneBeyond(C: set<nat>, w: seq<nat>, L: seq<nat>, T: nat, k: nat, n: nat)
    requires k <= n <= |w| == |L| && Within(C, L, T) && forall x :: x in C ==> x < k
    ensures Cost(C, w, L, n) == Cost(C, w, L, k) && Space(C, L, T, n) == Space(C, L, T, k)
  {
    if k < n {
      NoneBeyond(C, w, L, T, k, n - 1);
    }
  }

  lemma {:induction false} LeavesCut(f: seq<nat>, t: Forest, root: nat, B: nat)
    requires HuffmanForest(f, t, {root}, B) && |f| <= root == |t.w| - 1
    ensures forall x :: x in Cut(f, t, root, |f|) <==> 0 <= x < |f| && f[x] > 0
    ensures forall i :: 0 <= i < |f| ==> t.w[i] == f[i]
  {
    forall x | 0 <= x < |f| && f[x] > 0
      ensures x in Cut(f, t, root, |f|)
    {
      assert Live(f, x, |t.w|);
    }
  }

  /** The depths of the leaves are a code of least cost. */
  lemma {:induction false} DepthsAreShortest(f: seq<nat>, t: Forest, root: nat, B: nat, len: seq<nat>)
    requires HuffmanForest(f, t, {root}, B) && Ordered(f, t, {root}) && |f| <= root == |t.w| - 1 && |len| == |f|
    requires forall i :: 0 <= i < |f| && f[i] > 0 ==> len[i] == Depth(t.parent, i)
    ensures Shortest(f, len)
  {
    forall other: seq<nat> | IsCode(f, other)
      ensures TotalBits(f, len, |f|) <= TotalBits(f, other, |f|)
    {
      NotLonger(f, t, root, B, len, other);
    }
  }

  lemma {:induction false} NotLonger(f: seq<nat>, t: Forest, root: nat, B: nat, len: seq<nat>, other: seq<nat>)
    requires t.Sized() && HuffmanForest(f, t, {root}, B) && Ordered(f, t, {root}) && |f| <= root == |t.w| - 1 && |len| == |f|
    requires forall i :: 0 <= i < |f| && f[i] > 0 ==> len[i] == Depth(t.parent, i)
    requires IsCode(f, other)
    ensures TotalBits(f, len, |f|) <= TotalBits(f, other, |f|)
  {
    hide Cost, Space, Pow2, Cut, HuffmanForest, Ordered, UsedKraft, TotalBits, Longest, Depth;
    var C, n, k := Cut(f, t, root, |f|), |t.w|, |f|;
    LeavesCut(f, t, root, B);
    var T, L := Longest(other), other + Repeat(0, n - k);
    var D := AllDepths(t);
    var E := Longest(D);
    SymbolSums(f, C, t.w, L, other, T, k);
    NoneBeyond(C, t.w, L, T, k, n);
    SymbolSums(f, C, t.w, D, len, E, k);
    NoneBeyond(C, t.w, D, E, k, n);
    AtMostOne(UsedKraft(f, other, k), Pow2(T), Space(C, L, T, n));
    NoCheaper(f, t, root, B, k, L, T);
  }

  lemma {:induction false} AtMostOne(x: real, p: nat, s: nat)
    requires x <= 1.0 && s as real == x * p as real
    ensures s <= p
  {
    assert (1.0 - x) * p as real >= 0.0;
  }

  /** With one symbol there is nothing shorter than one bit. */
  lemma {:induction false} OneIsShortest(f: seq<nat>, len: seq<nat>, last: nat)
    requires |len| == |f| && last < |f| && len[last] == 1 && forall i :: 0 <= i < |f| && i != last ==> f[i] == 0
    ensures Shortest(f, len)
  {
    forall other: seq<nat> | IsCode(f, other)
      ensures TotalBits(f, len, |f|) <= TotalBits(f, other, |f|)
    {
      OneNotLonger(f, len, other, last, |f|);
    }
  }

  lemma {:induction false} OneNotLonger(f: seq<nat>, len: seq<nat>, other: seq<nat>, last: nat, n: nat)
    requires n <= |f| == |len| == |other| && last < |f| && len[last] == 1 && forall i :: 0 <= i < |f| && i != last ==> f[i] == 0
    requires f[last] > 0 ==> other[last] >= 1
    ensures TotalBits(f, len, n) <= TotalBits(f, other, n)
  {
    if n > 0 {
      OneNotLonger(f, len, other, last, n - 1);
      if n - 1 == last && f[last] > 0 {
        MulMono(1, other[last], f[last]);
      }
    }
  }

  lemma {:induction false} NoneIsShortest(f: seq<nat>, len: seq<nat>)
    requires |len| == |f| && forall i :: 0 <= i < |f| ==> f[i] == 0
    ensures Shortest(f, len)
  {
    NoBits(f, len, |f|);
  }

  lemma {:induction false} NoBits(f: seq<nat>, len: seq<nat>, n: nat)
    requires n <= |f| == |len| && forall i :: 0 <= i < |f| ==> f[i] == 0
    ensures TotalBits(f, len, n) == 0
  {
    if n > 0 {
      NoBits(f, len, n - 1);
    }
  }
}
