/** The binary heap of nodes by weight inside gzip.c's lengths: sifting with a hole, in place. */
module Heap {

  function Par(k: nat): nat
    requires k > 0
  {
    (k - 1) / 2
  }

  /** The first n places of h hold nodes that have a weight. */
  ghost predicate Nodes(h: seq<nat>, n: nat, w: seq<nat>)
  {
    n <= |h| && forall k :: 0 <= k < n ==> h[k] < |w|
  }

  ghost predicate IsHeap(h: seq<nat>, n: nat, w: seq<nat>)
  {
    Nodes(h, n, w) && forall k {:trigger Par(k)} :: 0 < k < n ==> w[h[Par(k)]] <= w[h[k]]
  }

  /** A heap but for the hole at k, which may not be filled with anything heavier than the nodes
      below it. */
  ghost predicate Hole(h: seq<nat>, n: nat, w: seq<nat>, k: nat)
  {
    && k < n <= |h|
    && (forall j :: 0 <= j < n && j != k ==> h[j] < |w|)
    && (forall j {:trigger Par(j)} :: 0 < j < n && j != k && Par(j) != k ==> w[h[Par(j)]] <= w[h[j]])
    && (k > 0 ==> forall j {:trigger Par(j)} :: 0 < j < n && Par(j) == k ==> w[h[Par(k)]] <= w[h[j]])
  }

  /** x is no heavier than the nodes below the hole. */
  ghost predicate AboveChildren(h: seq<nat>, n: nat, w: seq<nat>, k: nat, x: nat)
    requires Hole(h, n, w, k) && x < |w|
  {
    forall j {:trigger Par(j)} :: 0 < j < n && Par(j) == k ==> w[x] <= w[h[j]]
  }

  /** Moving the node above the hole down into it. */
  lemma {:induction false} MoveDown(h: seq<nat>, n: nat, w: seq<nat>, k: nat, x: nat)
    requires Hole(h, n, w, k) && k > 0 && x < |w| && w[h[Par(k)]] > w[x]
    requires AboveChildren(h, n, w, k, x)
    ensures var g := h[k := h[Par(k)]];
            Hole(g, n, w, Par(k)) && AboveChildren(g, n, w, Par(k), x)
  {
  }

  /** Moving the lightest node below the hole up into it. */
  lemma {:induction false} MoveUp(h: seq<nat>, n: nat, w: seq<nat>, k: nat, c: nat, x: nat)
    requires Hole(h, n, w, k) && 0 < c < n && Par(c) == k && x < |w| && w[h[c]] < w[x]
    requires forall j {:trigger Par(j)} :: 0 < j < n && Par(j) == k ==> w[h[c]] <= w[h[j]]
    requires k > 0 ==> w[h[Par(k)]] <= w[x]
    ensures var g := h[k := h[c]];
            Hole(g, n, w, c) && w[g[k]] <= w[x]
  {
  }

  lemma {:induction false} Filled(h: seq<nat>, n: nat, w: seq<nat>, k: nat, x: nat)
    requires Hole(h, n, w, k) && x < |w| && AboveChildren(h, n, w, k, x)
    requires k > 0 ==> w[h[Par(k)]] <= w[x]
    ensures IsHeap(h[k := x], n, w)
  {
  }

  /** The root is lightest. */
  lemma {:induction false} RootIsLightest(h: seq<nat>, n: nat, w: seq<nat>, k: nat)
    requires IsHeap(h, n, w) && k < n
    ensures w[h[0]] <= w[h[k]]
    decreases k
  {
    if k > 0 {
      RootIsLightest(h, n, w, Par(k));
    }
  }

  /** The nodes in the first n places. */
  ghost function Bag(h: seq<nat>, n: nat): multiset<nat>
    requires n <= |h|
  {
    if n == 0 then multiset{} else Bag(h, n - 1) + multiset{h[n - 1]}
  }

  lemma {:induction false} MoreOf(s: seq<nat>, x: nat)
    ensures multiset(s + [x]) == multiset(s) + multiset{x}
  {
  }

  lemma {:induction false} BagNext(h: seq<nat>, n: nat)
    requires 0 < n <= |h|
    ensures Bag(h, n) == Bag(h, n - 1) + multiset{h[n - 1]}
  {
  }

  lemma {:induction false} BagOfSlice(h: seq<nat>, n: nat)
    requires n <= |h|
    ensures Bag(h, n) == multiset(h[..n])
  {
    if n == 0 {
      assert h[..0] == [];
    } else {
      BagOfSlice(h, n - 1);
      hide Bag;
      assert h[..n] == h[..n - 1] + [h[n - 1]];
      MoreOf(h[..n - 1], h[n - 1]);
      BagNext(h, n);
    }
  }

  /** Filling the hole at j instead of k, with what was at j moved to k. */
  lemma {:induction false} SameNodes(h: seq<nat>, n: nat, j: nat, k: nat, x: nat)
    requires j < n <= |h| && k < n && j != k
    ensures Bag(h[k := h[j]][j := x], n) == Bag(h[k := x], n)
  {
    var s := h[..n];
    assert h[k := h[j]][j := x][..n] == s[k := h[j]][j := x];
    assert h[k := x][..n] == s[k := x];
    BagOfSlice(h[k := h[j]][j := x], n);
    BagOfSlice(h[k := x], n);
  }

  /** On the way up with x: the nodes are those wanted once x fills the hole. */
  ghost predicate Rising(h: seq<nat>, n: nat, w: seq<nat>, k: nat, x: nat, nodes: multiset<nat>)
  {
    Hole(h, n, w, k) && x < |w| && AboveChildren(h, n, w, k, x) && Bag(h[k := x], n) == nodes
  }

  lemma {:induction false} RiseStart(h: seq<nat>, n: nat, w: seq<nat>, x: nat)
    requires n < |h| && x < |w| && IsHeap(h, n, w)
    ensures Rising(h, n + 1, w, n, x, Bag(h, n) + multiset{x})
  {
    BagOfSlice(h, n);
    BagOfSlice(h[n := x], n + 1);
    assert h[n := x][..n + 1] == h[..n] + [x];
  }

  lemma {:induction false} RiseStep(h: seq<nat>, n: nat, w: seq<nat>, k: nat, x: nat, nodes: multiset<nat>)
    requires Rising(h, n, w, k, x, nodes) && k > 0 && w[h[Par(k)]] > w[x]
    ensures Rising(h[k := h[Par(k)]], n, w, Par(k), x, nodes)
  {
    MoveDown(h, n, w, k, x);
    SameNodes(h, n, Par(k), k, x);
  }

  lemma {:induction false} RisingParts(h: seq<nat>, n: nat, w: seq<nat>, k: nat, x: nat, nodes: multiset<nat>)
    requires Rising(h, n, w, k, x, nodes)
    ensures k < n <= |h| && (k > 0 ==> Par(k) < k && h[Par(k)] < |w|)
  {
  }

  lemma {:induction false} RiseEnd(h: seq<nat>, n: nat, w: seq<nat>, k: nat, x: nat, nodes: multiset<nat>)
    requires Rising(h, n, w, k, x, nodes) && (k == 0 || (Par(k) < |h| && h[Par(k)] < |w| && w[h[Par(k)]] <= w[x]))
    ensures k < |h| && IsHeap(h[k := x], n, w) && Bag(h[k := x], n) == nodes
  {
    Filled(h, n, w, k, x);
  }

  /** Add node x to the heap of the first n places. */
  method Push(heap: array<nat>, n: nat, w: seq<nat>, x: nat)
    requires n < heap.Length && x < |w| && IsHeap(heap[..], n, w)
    modifies heap
    ensures IsHeap(heap[..], n + 1, w)
    ensures Bag(heap[..], n + 1) == old(Bag(heap[..], n)) + multiset{x}
  {
    hide *;
    var k: nat := n;
    ghost var nodes := Bag(heap[..], n) + multiset{x};
    ghost var h := heap[..];
    RiseStart(h, n, w, x);
    RisingParts(h, n + 1, w, k, x, nodes);
    while k > 0 && w[heap[Par(k)]] > w[x]
      invariant heap[..] == h && k <= n && Rising(h, n + 1, w, k, x, nodes) && (k > 0 ==> Par(k) < k && h[Par(k)] < |w|)
      decreases k
    {
      var p := Par(k);
      RiseStep(h, n + 1, w, k, x, nodes);
      heap[k] := heap[p];
      h := h[k := h[p]];
      k := p;
      RisingParts(h, n + 1, w, k, x, nodes);
    }
    RiseEnd(h, n + 1, w, k, x, nodes);
    heap[k] := x;
    assert heap[..] == h[k := x];
  }

  /** On the way down with x. */
  ghost predicate Sinking(h: seq<nat>, n: nat, w: seq<nat>, k: nat, x: nat, nodes: multiset<nat>)
  {
    Hole(h, n, w, k) && x < |w| && (k > 0 ==> w[h[Par(k)]] <= w[x]) && Bag(h[k := x], n) == nodes
  }

  lemma {:induction false} SinkStart(h: seq<nat>, n: nat, w: seq<nat>)
    requires 1 < n <= |h| && IsHeap(h, n, w)
    ensures Sinking(h, n - 1, w, 0, h[n - 1], Bag(h, n) - multiset{h[0]})
  {
    var x := h[n - 1];
    var s := h[..n - 1];
    assert h[..n] == s + [x];
    assert h[0 := x][..n - 1] == s[0 := x];
    BagOfSlice(h, n);
    BagOfSlice(h[0 := x], n - 1);
  }

  lemma {:induction false} SinkStep(h: seq<nat>, n: nat, w: seq<nat>, k: nat, c: nat, x: nat, nodes: multiset<nat>)
    requires Sinking(h, n, w, k, x, nodes) && 0 < c < n && Par(c) == k && w[h[c]] < w[x]
    requires forall j {:trigger Par(j)} :: 0 < j < n && Par(j) == k ==> w[h[c]] <= w[h[j]]
    ensures Sinking(h[k := h[c]], n, w, c, x, nodes)
  {
    MoveUp(h, n, w, k, c, x);
    SameNodes(h, n, c, k, x);
  }

  /** The lighter of the nodes below place k. */
  lemma {:induction false} LighterChild(h: seq<nat>, n: nat, w: seq<nat>, k: nat, c: nat)
    requires Hole(h, n, w, k) && (c == 2 * k + 1 || c == 2 * k + 2) && c < n
    requires c == 2 * k + 1 && c + 1 < n ==> w[h[c]] <= w[h[c + 1]]
    requires c == 2 * k + 2 ==> w[h[c]] <= w[h[c - 1]]
    ensures Par(c) == k && forall j {:trigger Par(j)} :: 0 < j < n && Par(j) == k ==> w[h[c]] <= w[h[j]]
  {
    forall j | 0 < j < n && Par(j) == k ensures j == 2 * k + 1 || j == 2 * k + 2 {
    }
  }

  /** Let x sink from the root to its place among the first n. */
  method Sink(heap: array<nat>, n: nat, w: seq<nat>, x: nat, ghost nodes: multiset<nat>)
    requires n <= heap.Length && (n > 0 ==> Sinking(heap[..], n, w, 0, x, nodes)) && x < |w|
    modifies heap
    ensures n > 0 ==> IsHeap(heap[..], n, w) && Bag(heap[..], n) == nodes
    ensures n == 0 ==> heap[..] == old(heap[..])
  {
    hide Bag, IsHeap;
    var k: nat := 0;
    ghost var h := heap[..];
    while true
      invariant heap[..] == h && (n == 0 ==> h == old(heap[..]))
      invariant n > 0 ==> Sinking(h, n, w, k, x, nodes)
      decreases n - k
    {
      var c := 2 * k + 1;
      if c >= n {
        break;
      }
      if c + 1 < n && w[heap[c + 1]] < w[heap[c]] {
        c := c + 1;
      }
      LighterChild(h, n, w, k, c);
      if w[heap[c]] >= w[x] {
        break;
      }
      SinkStep(h, n, w, k, c, x, nodes);
      heap[k] := heap[c];
      h := h[k := h[c]];
      k := c;
    }
    if n > 0 {
      Filled(h, n, w, k, x);
      heap[k] := x;
      assert heap[..] == h[k := x];
    }
  }

  /** Take the lightest node out of the heap of the first n places. */
  method Pop(heap: array<nat>, n: nat, w: seq<nat>) returns (top: nat)
    requires 0 < n <= heap.Length && IsHeap(heap[..], n, w)
    modifies heap
    ensures IsHeap(heap[..], n - 1, w)
    ensures Bag(heap[..], n - 1) == old(Bag(heap[..], n)) - multiset{top}
    ensures top in old(Bag(heap[..], n)) && top < |w|
    ensures forall x :: x in old(Bag(heap[..], n)) ==> x < |w| && w[top] <= w[x]
  {
    ghost var h := heap[..];
    top := heap[0];
    var x := heap[n - 1];
    PopFacts(h, n, w);
    Sink(heap, n - 1, w, x, Bag(h, n) - multiset{top});
  }

  lemma {:induction false} PopFacts(h: seq<nat>, n: nat, w: seq<nat>)
    requires 0 < n <= |h| && IsHeap(h, n, w)
    ensures h[0] in Bag(h, n)
    ensures forall x :: x in Bag(h, n) ==> x < |w| && w[h[0]] <= w[x]
    ensures n > 1 ==> Sinking(h, n - 1, w, 0, h[n - 1], Bag(h, n) - multiset{h[0]})
    ensures n == 1 ==> Bag(h, 0) == Bag(h, 1) - multiset{h[0]}
  {
    BagOfSlice(h, n);
    forall x | x in Bag(h, n) ensures x < |w| && w[h[0]] <= w[x] {
      var k :| 0 <= k < n && h[..n][k] == x;
      RootIsLightest(h, n, w, k);
    }
    assert h[..n][0] == h[0];
    if n > 1 {
      SinkStart(h, n, w);
    } else {
      assert h[..1] == [h[0]];
    }
  }
}
