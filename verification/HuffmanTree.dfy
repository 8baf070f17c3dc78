/** The Huffman tree inside gzip.c's lengths: a forest of nodes by weight, joined through a heap. */
module HuffmanTree {
  import opened Arith
  import opened Bits
  import opened Huffman
  import opened Kraft
  import opened Heap

  function Fib(n: nat): nat
  {
    if n < 2 then n else Fib(n - 1) + Fib(n - 2)
  }

  /** The nodes that take part, of N: the symbols that are used, and all inner nodes. */
  predicate Live(f: seq<nat>, x: nat, N: nat)
  {
    x < N && (x < |f| ==> f[x] > 0)
  }

  /** A forest: for each node its weight, its parent, its two kids and its height. */
  datatype Forest = Forest(w: seq<nat>, parent: seq<nat>, kid: seq<(nat, nat)>, ht: seq<nat>)
  {
    ghost predicate Sized()
    {
      |parent| == |kid| == |ht| == |w|
    }
  }

  /** Inner node m: it joins two nodes made before it, no heavier than B. */
  ghost predicate Inner(f: seq<nat>, t: Forest, S: set<nat>, B: nat, m: nat)
    requires t.Sized() && m < |t.w|
  {
    var (a, b) := t.kid[m];
    && a != b && a < m && b < m
    && Live(f, a, |t.w|) && Live(f, b, |t.w|)
    && a !in S && b !in S
    && t.parent[a] == m && t.parent[b] == m
    && t.w[m] == t.w[a] + t.w[b] && t.w[a] <= B && t.w[b] <= B
    && t.ht[m] == 1 + Max(t.ht[a], t.ht[b])
  }

  /** A forest over the weights f with the roots S, made by joining lightest roots, and a bound B
      between the weights of the kids and of the roots. */
  ghost predicate HuffmanForest(f: seq<nat>, t: Forest, S: set<nat>, B: nat)
  {
    && t.Sized() && |t.w| >= |f|
    && (forall i :: 0 <= i < |f| ==> t.w[i] == f[i] && t.ht[i] == 0)
    && (forall x :: x in S ==> Live(f, x, |t.w|) && t.w[x] >= B)
    && (forall x: nat {:trigger Live(f, x, |t.w|)} :: Live(f, x, |t.w|) && x !in S ==>
          |f| <= t.parent[x] < |t.w| && (x == t.kid[t.parent[x]].0 || x == t.kid[t.parent[x]].1))
    && (forall m :: |f| <= m < |t.w| ==> Inner(f, t, S, B, m))
    && (forall x: nat {:trigger t.ht[x]} :: Live(f, x, |t.w|) ==> t.w[x] >= Fib(t.ht[x] + 2))
  }

  /** A node of height h weighs at least the Fibonacci number h + 2; so do two roots together. */
  lemma {:induction false} FibonacciWeight(f: seq<nat>, t: Forest, S: set<nat>, B: nat, c: nat, s: nat)
    requires HuffmanForest(f, t, S, B) && c in S && s in S && t.ht[c] >= t.ht[s]
    ensures t.w[c] + t.w[s] >= Fib(t.ht[c] + 3)
  {
    assert t.w[c] >= Fib(t.ht[c] + 2);
    if t.ht[c] > 0 {
      assert Inner(f, t, S, B, c);
      var (x, y) := t.kid[c];
      var z := if t.ht[x] < t.ht[y] then y else x;
      assert t.w[z] >= Fib(t.ht[z] + 2);
    } else {
      assert Fib(2) == 1;
      assert t.w[s] >= Fib(t.ht[s] + 2);
    }
  }

  /** a and b are the two lightest roots. */
  ghost predicate Lightest(w: seq<nat>, S: set<nat>, a: nat, b: nat)
    requires forall x :: x in S ==> x < |w|
  {
    && a in S && b in S && a != b
    && (forall x :: x in S ==> w[a] <= w[x])
    && (forall x :: x in S && x != a ==> w[b] <= w[x])
  }

  function WithParent(parent: seq<nat>, a: nat, b: nat): seq<nat>
    requires a < |parent| && b < |parent|
  {
    parent[a := |parent|][b := |parent|] + [0]
  }

  function Joined(t: Forest, a: nat, b: nat): (t': Forest)
    requires t.Sized() && a < |t.w| && b < |t.w|
    ensures t'.Sized() && |t'.w| == |t.w| + 1
  {
    Forest(t.w + [t.w[a] + t.w[b]], WithParent(t.parent, a, b), t.kid + [(a, b)], t.ht + [1 + Max(t.ht[a], t.ht[b])])
  }

  lemma {:induction false} JoinedInner(f: seq<nat>, t: Forest, S: set<nat>, B: nat, a: nat, b: nat, t': Forest, S': set<nat>, m: nat)
    requires HuffmanForest(f, t, S, B) && Lightest(t.w, S, a, b) && t' == Joined(t, a, b) && S' == S - {a, b} + {|t.w|}
    requires |f| <= m < |t'.w|
    ensures Inner(f, t', S', t.w[b], m)
  {
    if m < |t.w| {
      assert Inner(f, t, S, B, m);
      assert t'.kid[m] == t.kid[m];
    } else {
      assert t'.kid[m] == (a, b);
      assert t'.w[m] == t'.w[a] + t'.w[b];
    }
  }

  /** Joining the two lightest roots. */
  lemma {:induction false} Join(f: seq<nat>, t: Forest, S: set<nat>, B: nat, a: nat, b: nat, t': Forest, S': set<nat>)
    requires HuffmanForest(f, t, S, B) && Lightest(t.w, S, a, b) && t' == Joined(t, a, b) && S' == S - {a, b} + {|t.w|}
    ensures HuffmanForest(f, t', S', t.w[b])
  {
    hide Inner;
    JoinedWeights(f, t, S, B, a, b, t', S');
    forall m | |f| <= m < |t'.w|
      ensures Inner(f, t', S', t.w[b], m)
    {
      JoinedInner(f, t, S, B, a, b, t', S', m);
    }
    forall x: nat | Live(f, x, |t'.w|) && x !in S'
      ensures |f| <= t'.parent[x] < |t'.w| && (x == t'.kid[t'.parent[x]].0 || x == t'.kid[t'.parent[x]].1)
    {
      assert Live(f, x, |t.w|);
    }
  }

  lemma {:induction false} JoinedWeights(f: seq<nat>, t: Forest, S: set<nat>, B: nat, a: nat, b: nat, t': Forest, S': set<nat>)
    requires HuffmanForest(f, t, S, B) && Lightest(t.w, S, a, b) && t' == Joined(t, a, b) && S' == S - {a, b} + {|t.w|}
    ensures forall x: nat {:trigger t'.ht[x]} :: Live(f, x, |t'.w|) ==> t'.w[x] >= Fib(t'.ht[x] + 2)
  {
    if t.ht[a] < t.ht[b] {
      FibonacciWeight(f, t, S, B, b, a);
    } else {
      FibonacciWeight(f, t, S, B, a, b);
    }
    forall x: nat | Live(f, x, |t'.w|)
      ensures t'.w[x] >= Fib(t'.ht[x] + 2)
    {
      assert x < |t.w| ==> t'.ht[x] == t.ht[x];
    }
  }

  /** The roots when there were m nodes. */
  ghost function Open(f: seq<nat>, t: Forest, S: set<nat>, m: nat): (C: set<nat>)
    requires t.Sized()
    ensures forall x :: x in C ==> x < m && x < |t.w|
  {
    set x | 0 <= x < m && Live(f, x, |t.w|) && (x in S || t.parent[x] >= m)
  }

  /** Each inner node joined the two lightest roots there were. */
  ghost predicate Ordered(f: seq<nat>, t: Forest, S: set<nat>)
  {
    t.Sized() && forall m :: |f| <= m < |t.w| ==> Lightest(t.w, Open(f, t, S, m), t.kid[m].0, t.kid[m].1)
  }

  lemma {:induction false} OpenBefore(f: seq<nat>, t: Forest, S: set<nat>, B: nat, a: nat, b: nat, t': Forest, S': set<nat>, m: nat)
    requires HuffmanForest(f, t, S, B) && Lightest(t.w, S, a, b) && t' == Joined(t, a, b) && S' == S - {a, b} + {|t.w|}
    requires m <= |t.w|
    ensures Open(f, t', S', m) == if m < |t.w| then Open(f, t, S, m) else S
  {
    hide HuffmanForest, Lightest;
    RootsBefore(f, t, S, B);
    forall x: nat | x < m
      ensures x in Open(f, t', S', m) <==> x in (if m < |t.w| then Open(f, t, S, m) else S)
    {
      OpenOne(f, t, S, B, a, b, t', S', m, x);
    }
  }

  lemma {:induction false} RootsBefore(f: seq<nat>, t: Forest, S: set<nat>, B: nat)
    requires HuffmanForest(f, t, S, B)
    ensures t.Sized() && forall x :: x in S ==> x < |t.w|
  {
  }

  lemma {:induction false} OpenOne(f: seq<nat>, t: Forest, S: set<nat>, B: nat, a: nat, b: nat, t': Forest, S': set<nat>, m: nat, x: nat)
    requires HuffmanForest(f, t, S, B) && Lightest(t.w, S, a, b) && t' == Joined(t, a, b) && S' == S - {a, b} + {|t.w|}
    requires x < m <= |t.w|
    ensures x in Open(f, t', S', m) <==> x in (if m < |t.w| then Open(f, t, S, m) else S)
  {
    assert Live(f, x, |t.w|) == Live(f, x, |t'.w|);
    assert t'.parent[x] == if x == a || x == b then |t.w| else t.parent[x];
  }

  lemma {:induction false} JoinOrdered(f: seq<nat>, t: Forest, S: set<nat>, B: nat, a: nat, b: nat, t': Forest, S': set<nat>)
    requires HuffmanForest(f, t, S, B) && Lightest(t.w, S, a, b) && t' == Joined(t, a, b) && S' == S - {a, b} + {|t.w|}
    requires Ordered(f, t, S)
    ensures Ordered(f, t', S')
  {
    hide HuffmanForest, Open;
    forall m | |f| <= m < |t'.w|
      ensures Lightest(t'.w, Open(f, t', S', m), t'.kid[m].0, t'.kid[m].1)
    {
      RootsBefore(f, t, S, B);
      OpenBefore(f, t, S, B, a, b, t', S', m);
      if m < |t.w| {
        assert t'.kid[m] == t.kid[m];
      } else {
        assert t'.kid[m] == (a, b);
      }
    }
  }

  // ---- the weight of the roots ----

  ghost function Weight(S: set<nat>, w: seq<nat>, n: nat): nat
    requires n <= |w|
  {
    if n == 0 then 0 else Weight(S, w, n - 1) + if n - 1 in S then w[n - 1] else 0
  }

  lemma {:induction false} WeightWithout(S: set<nat>, w: seq<nat>, n: nat, a: nat)
    requires n <= |w| && a in S
    ensures Weight(S, w, n) == Weight(S - {a}, w, n) + if a < n then w[a] else 0
  {
    if n > 0 {
      WeightWithout(S, w, n - 1, a);
    }
  }

  lemma {:induction false} WeightSame(S: set<nat>, T: set<nat>, w: seq<nat>, w': seq<nat>, n: nat)
    requires n <= |w| && n <= |w'|
    requires forall x :: 0 <= x < n ==> (x in S <==> x in T) && w[x] == w'[x]
    ensures Weight(S, w, n) == Weight(T, w', n)
  {
    if n > 0 {
      WeightSame(S, T, w, w', n - 1);
    }
  }

  /** Joining roots keeps their weight. */
  lemma {:induction false} JoinWeight(t: Forest, S: set<nat>, a: nat, b: nat, t': Forest, S': set<nat>)
    requires t.Sized() && a in S && b in S && a != b && forall x :: x in S ==> x < |t.w|
    requires t' == Joined(t, a, b) && S' == S - {a, b} + {|t.w|}
    ensures Weight(S', t'.w, |t'.w|) == Weight(S, t.w, |t.w|)
  {
    WeightWithout(S, t.w, |t.w|, a);
    WeightWithout(S - {a}, t.w, |t.w|, b);
    WeightSame(S - {a} - {b}, S', t.w, t'.w, |t.w|);
  }

  // ---- the tree from the heap ----

  ghost function Used(f: seq<nat>, n: nat): set<nat>
  {
    set x | 0 <= x < n && x < |f| && f[x] > 0
  }

  ghost function Leaves(f: seq<nat>): Forest
  {
    Forest(f, Repeat(0, |f|), Repeat((0, 0), |f|), Repeat(0, |f|))
  }

  lemma {:induction false} LeavesAreForest(f: seq<nat>)
    ensures HuffmanForest(f, Leaves(f), Used(f, |f|), 0) && Ordered(f, Leaves(f), Used(f, |f|))
  {
    assert Fib(2) == 1;
  }

  /** A heap stays one when there are more weights. */
  lemma {:induction false} MoreWeights(h: seq<nat>, n: nat, w: seq<nat>, w': seq<nat>)
    requires IsHeap(h, n, w) && w <= w'
    ensures IsHeap(h, n, w')
  {
  }

  lemma {:induction false} SetOps(S: set<nat>, x: nat)
    ensures x in S ==> multiset(S) - multiset{x} == multiset(S - {x})
    ensures x !in S ==> multiset(S) + multiset{x} == multiset(S + {x})
    ensures forall y :: y in S <==> y in multiset(S)
  {
  }

  /** The first n places of the heap hold the roots S. */
  ghost predicate Holds(h: seq<nat>, n: nat, w: seq<nat>, S: set<nat>)
  {
    IsHeap(h, n, w) && Bag(h, n) == multiset(S)
  }

  /** Take the lightest root out of the heap. */
  method PopRoot(heap: array<nat>, hn: nat, w: seq<nat>, ghost S: set<nat>) returns (a: nat)
    requires 0 < hn <= heap.Length && Holds(heap[..], hn, w, S)
    modifies heap
    ensures Holds(heap[..], hn - 1, w, S - {a})
    ensures a in S && forall x :: x in S ==> x < |w|
    ensures forall x :: x in S ==> w[a] <= w[x]
  {
    a := Pop(heap, hn, w);
    SetOps(S, a);
  }

  method PushRoot(heap: array<nat>, hn: nat, w: seq<nat>, ghost S: set<nat>, x: nat)
    requires hn < heap.Length && Holds(heap[..], hn, w, S) && x < |w| && x !in S
    modifies heap
    ensures Holds(heap[..], hn + 1, w, S + {x})
  {
    Push(heap, hn, w, x);
    SetOps(S, x);
  }

  /** Take the two lightest roots out of the heap and put a new one in. */
  method ReplaceTwo(heap: array<nat>, hn: nat, w: seq<nat>, ghost S: set<nat>) returns (a: nat, b: nat, w': seq<nat>)
    requires 1 < hn <= heap.Length && Holds(heap[..], hn, w, S)
    modifies heap
    ensures forall x :: x in S ==> x < |w|
    ensures Lightest(w, S, a, b) && w' == w + [w[a] + w[b]]
    ensures Holds(heap[..], hn - 1, w', S - {a} - {b} + {|w|})
  {
    hide IsHeap, Bag;
    a := PopRoot(heap, hn, w, S);
    b := PopRoot(heap, hn - 1, w, S - {a});
    w' := w + [w[a] + w[b]];
    MoreWeights(heap[..], hn - 2, w, w');
    PushRoot(heap, hn - 2, w', S - {a} - {b}, |w|);
  }

  lemma {:induction false} UsedNext(f: seq<nat>, i: nat)
    requires i < |f|
    ensures Used(f, i + 1) == if f[i] > 0 then Used(f, i) + {i} else Used(f, i)
  {
  }

  /** Add leaf i to the heap, if it is used. */
  method PushLeaf(heap: array<nat>, hn: nat, f: seq<nat>, i: nat) returns (hn': nat)
    requires hn <= i < |f| == heap.Length && Holds(heap[..], hn, f, Used(f, i))
    modifies heap
    ensures hn' <= i + 1 && Holds(heap[..], hn', f, Used(f, i + 1))
  {
    hn' := hn;
    if f[i] != 0 {
      PushRoot(heap, hn, f, Used(f, i), i);
      hn' := hn + 1;
    }
    UsedNext(f, i);
  }

  method HeapOfLeaves(f: seq<nat>) returns (heap: array<nat>, hn: nat)
    ensures fresh(heap) && heap.Length == |f| && hn <= |f|
    ensures Holds(heap[..], hn, f, Used(f, |f|))
  {
    heap := new nat[|f|];
    hn := 0;
    for i := 0 to |f|
      invariant hn <= i && Holds(heap[..], hn, f, Used(f, i))
    {
      hn := PushLeaf(heap, hn, f, i);
    }
  }

  lemma {:induction false} BagSize(h: seq<nat>, n: nat)
    requires n <= |h|
    ensures |Bag(h, n)| == n
  {
    if n > 0 {
      BagSize(h, n - 1);
    }
  }

  /** The only root left. */
  lemma {:induction false} LastRoot(h: seq<nat>, S: set<nat>, x: nat)
    requires 1 <= |h| && Bag(h, 1) == multiset(S) && x in S
    ensures S == {x}
  {
    BagSize(h, 1);
    assert |S| == 1;
    assert S == {x} + (S - {x});
    assert |S - {x}| == 0;
  }

  /** The state of the joining: the heap holds the roots of the forest t. */
  ghost predicate Joining(f: seq<nat>, h: seq<nat>, hn: nat, w: seq<nat>, parent: seq<nat>, t: Forest, S: set<nat>, B: nat)
  {
    && Holds(h, hn, w, S)
    && w == t.w && parent == t.parent && HuffmanForest(f, t, S, B) && Ordered(f, t, S)
    && Weight(S, w, |w|) == Weight(Used(f, |f|), f, |f|)
  }

  lemma {:induction false} StartJoining(f: seq<nat>, h: seq<nat>, hn: nat)
    requires Holds(h, hn, f, Used(f, |f|)) && hn <= |h| && |Used(f, |f|)| >= 2
    ensures Joining(f, h, hn, f, Repeat(0, |f|), Leaves(f), Used(f, |f|), 0) && hn > 1
  {
    hide IsHeap, HuffmanForest, Ordered, Used, Weight, Bag;
    LeavesAreForest(f);
    BagSize(h, hn);
  }

  lemma {:induction false} EndJoining(f: seq<nat>, h: seq<nat>, w: seq<nat>, parent: seq<nat>, t: Forest, S: set<nat>, B: nat)
    requires Joining(f, h, 1, w, parent, t, S, B) && 1 <= |h| && |w| > |f| && |w| - 1 in S
    ensures HuffmanForest(f, t, {|w| - 1}, B) && Ordered(f, t, {|w| - 1}) && w == t.w && parent == t.parent
    ensures Weight({|w| - 1}, t.w, |t.w|) == Weight(Used(f, |f|), f, |f|)
  {
    hide IsHeap, HuffmanForest, Ordered, Used, Weight, Bag;
    LastRoot(h, S, |w| - 1);
  }

  /** Join until one root is left. */
  method MakeTree(f: seq<nat>) returns (parent: seq<nat>, root: nat, ghost t: Forest, ghost B: nat)
    requires |Used(f, |f|)| >= 2
    ensures HuffmanForest(f, t, {root}, B) && Ordered(f, t, {root}) && |f| <= root == |t.w| - 1 && parent == t.parent
    ensures Weight({root}, t.w, |t.w|) == Weight(Used(f, |f|), f, |f|)
  {
    hide *;
    var heap, hn := HeapOfLeaves(f);
    StartJoining(f, heap[..], hn);
    var w := f;
    ghost var S := Used(f, |f|);
    t, B := Leaves(f), 0;
    parent := Repeat(0, |f|);
    while hn > 1
      invariant fresh(heap) && 1 <= hn <= heap.Length && Joining(f, heap[..], hn, w, parent, t, S, B)
      invariant |w| >= |f| && if |w| == |f| then hn > 1 else |w| - 1 in S
      decreases hn
    {
      w, parent, t, S, B := JoinLightest(f, heap, hn, w, parent, t, S, B);
      hn := hn - 1;
    }
    root := |w| - 1;
    EndJoining(f, heap[..], w, parent, t, S, B);
  }

  /** Make the two lightest roots the kids of a new one. */
  method JoinLightest(ghost f: seq<nat>, heap: array<nat>, hn: nat, w: seq<nat>, parent: seq<nat>,
                      ghost t: Forest, ghost S: set<nat>, ghost B: nat)
    returns (w': seq<nat>, parent': seq<nat>, ghost t': Forest, ghost S': set<nat>, ghost B': nat)
    requires 1 < hn <= heap.Length && Joining(f, heap[..], hn, w, parent, t, S, B)
    modifies heap
    ensures Joining(f, heap[..], hn - 1, w', parent', t', S', B')
    ensures |w'| == |w| + 1 && |w| in S'
  {
    hide Holds, Weight, Used;
    var a, b;
    a, b, w' := ReplaceTwo(heap, hn, w, S);
    parent' := WithParent(parent, a, b);
    t', S', B' := JoinRoots(f, t, S, B, a, b);
  }

  ghost method JoinRoots(f: seq<nat>, t: Forest, S: set<nat>, B: nat, a: nat, b: nat) returns (t': Forest, S': set<nat>, B': nat)
    requires HuffmanForest(f, t, S, B) && Ordered(f, t, S) && Lightest(t.w, S, a, b)
    ensures t' == Joined(t, a, b) && HuffmanForest(f, t', S', B') && Ordered(f, t', S')
    ensures S' == S - {a} - {b} + {|t.w|}
    ensures Weight(S', t'.w, |t'.w|) == Weight(S, t.w, |t.w|)
  {
    t' := Joined(t, a, b);
    S' := S - {a} - {b} + {|t.w|};
    B' := t.w[b];
    assert S - {a} - {b} == S - {a, b};
    Join(f, t, S, B, a, b, t', S');
    JoinOrdered(f, t, S, B, a, b, t', S');
    JoinWeight(t, S, a, b, t', S');
  }

  // ---- the depths ----

  /** How far node x is below the root. */
  function Depth(parent: seq<nat>, x: nat): nat
    decreases |parent| - x
  {
    if x < |parent| && x < parent[x] < |parent| then Depth(parent, parent[x]) + 1 else 0
  }

  /** The nodes below m that are the root or have their parents from m on: a cut through the tree. */
  ghost function Cut(f: seq<nat>, t: Forest, root: nat, m: nat): set<nat>
    requires t.Sized()
  {
    set x | 0 <= x < m && Live(f, x, |t.w|) && (x == root || t.parent[x] >= m)
  }

  ghost function CutSum(C: set<nat>, parent: seq<nat>, n: nat): real
  {
    if n == 0 then 0.0 else CutSum(C, parent, n - 1) + if n - 1 in C then Half(Depth(parent, n - 1)) else 0.0
  }

  lemma {:induction false} CutSumWithout(C: set<nat>, parent: seq<nat>, n: nat, a: nat)
    requires a in C
    ensures CutSum(C, parent, n) == CutSum(C - {a}, parent, n) + if a < n then Half(Depth(parent, a)) else 0.0
  {
    if n > 0 {
      CutSumWithout(C, parent, n - 1, a);
    }
  }

  lemma {:induction false} CutSumTail(C: set<nat>, parent: seq<nat>, m: nat, n: nat)
    requires m <= n && forall x :: x in C ==> x < m
    ensures CutSum(C, parent, n) == CutSum(C, parent, m)
  {
    if m < n {
      CutSumTail(C, parent, m, n - 1);
    }
  }

  /** Replacing an inner node by its kids moves the cut down. */
  lemma {:induction false} CutStep(f: seq<nat>, t: Forest, root: nat, B: nat, m: nat)
    requires HuffmanForest(f, t, {root}, B) && |f| <= m < |t.w| && root == |t.w| - 1
    ensures var (a, b) := t.kid[m];
            m in Cut(f, t, root, m + 1) && a in Cut(f, t, root, m) && b in Cut(f, t, root, m)
            && Cut(f, t, root, m + 1) - {m} == Cut(f, t, root, m) - {a} - {b}
  {
    assert Inner(f, t, {root}, B, m);
    var (a, b) := t.kid[m];
    assert Live(f, m, |t.w|);
    if m != root {
      assert Inner(f, t, {root}, B, t.parent[m]);
    }
    var C, D := Cut(f, t, root, m + 1) - {m}, Cut(f, t, root, m) - {a} - {b};
    forall x: nat | x in C || x in D
      ensures x in C && x in D
    {
      assert Live(f, x, |t.w|);
    }
  }

  lemma {:induction false} KidDepths(f: seq<nat>, t: Forest, root: nat, B: nat, m: nat)
    requires HuffmanForest(f, t, {root}, B) && |f| <= m < |t.w|
    ensures var (a, b) := t.kid[m];
            a != b && Half(Depth(t.parent, a)) + Half(Depth(t.parent, b)) == Half(Depth(t.parent, m))
  {
    assert Inner(f, t, {root}, B, m);
  }

  lemma {:induction false} RootDepth(t: Forest, root: nat)
    requires t.Sized() && root == |t.w| - 1
    ensures Depth(t.parent, root) == 0
  {
  }

  /** Every cut adds up to 1. */
  lemma {:induction false} CutIsOne(f: seq<nat>, t: Forest, root: nat, B: nat, m: nat)
    requires HuffmanForest(f, t, {root}, B) && |f| <= m <= |t.w| && root == |t.w| - 1 >= |f|
    ensures CutSum(Cut(f, t, root, m), t.parent, m) == 1.0
    decreases |t.w| - m
  {
    if m == |t.w| {
      WholeTree(f, t, root, B);
    } else {
      CutIsOne(f, t, root, B, m + 1);
      var (a, b) := t.kid[m];
      var C, D := Cut(f, t, root, m + 1), Cut(f, t, root, m);
      CutStep(f, t, root, B, m);
      KidDepths(f, t, root, B, m);
      CutSumWithout(C, t.parent, m + 1, m);
      CutSumTail(C - {m}, t.parent, m, m + 1);
      CutSumWithout(D, t.parent, m, a);
      CutSumWithout(D - {a}, t.parent, m, b);
    }
  }

  lemma {:induction false} WholeTree(f: seq<nat>, t: Forest, root: nat, B: nat)
    requires HuffmanForest(f, t, {root}, B) && root == |t.w| - 1 >= |f|
    ensures CutSum(Cut(f, t, root, |t.w|), t.parent, |t.w|) == 1.0
  {
    var C := Cut(f, t, root, |t.w|);
    assert Live(f, root, |t.w|);
    forall x: nat | x in C ensures x == root {
      assert Live(f, x, |t.w|);
    }
    assert C == {root};
    RootDepth(t, root);
    CutSumWithout(C, t.parent, |t.w|, root);
    CutSumTail(C - {root}, t.parent, 0, |t.w|);
  }

  /** A node is as far below the root as the heights allow. */
  lemma {:induction false} DepthAndHeight(f: seq<nat>, t: Forest, root: nat, B: nat, x: nat)
    requires HuffmanForest(f, t, {root}, B) && root == |t.w| - 1 && Live(f, x, |t.w|)
    ensures Depth(t.parent, x) + t.ht[x] <= t.ht[root]
    decreases |t.w| - x
  {
    if x == root {
      RootDepth(t, root);
    } else {
      var p := t.parent[x];
      assert Inner(f, t, {root}, B, p);
      assert Live(f, p, |t.w|);
      DepthAndHeight(f, t, root, B, p);
    }
  }
}
