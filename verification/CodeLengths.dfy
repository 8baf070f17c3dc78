/** gzip.c's lengths: length-limited Huffman code lengths, the depths in the tree. */
module CodeLengths {
  import opened Bits
  import opened Canonical
  import opened Huffman
  import opened Kraft
  import opened HuffmanTree
  import opened Optimal

  /** The lengths are the depths of the used symbols; one byte is kept of each. */
  ghost predicate AreDepths(f: seq<nat>, parent: seq<nat>, n: nat, len: seq<nat>)
    requires n <= |f|
  {
    |len| == |f| && forall i :: 0 <= i < n ==> len[i] == if f[i] > 0 then Depth(parent, i) % 256 else 0
  }

  /** Some used symbol among the first n is deeper than the limit. */
  ghost predicate TooDeep(f: seq<nat>, parent: seq<nat>, n: nat, limit: nat)
    requires n <= |f|
  {
    exists i :: 0 <= i < n && f[i] > 0 && Depth(parent, i) > limit
  }

  method InnerDepths(ghost f: seq<nat>, n: nat, parent: seq<nat>, root: nat, ghost t: Forest, ghost B: nat) returns (depth: seq<nat>)
    requires HuffmanForest(f, t, {root}, B) && n == |f| <= root == |t.w| - 1 && parent == t.parent
    ensures |depth| == |parent| && forall m :: n <= m < |parent| ==> depth[m] == Depth(parent, m)
  {
    depth := Repeat(0, |parent|);
    RootDepth(t, root);
    for m := |parent| downto n
      invariant |depth| == |parent| && (forall k :: m <= k < |parent| ==> depth[k] == Depth(parent, k))
      invariant m > root ==> depth[root] == 0
    {
      if m != root {
        assert Live(f, m, |t.w|);
        assert Inner(f, t, {root}, B, parent[m]);
        depth := depth[m := depth[parent[m]] + 1];
      }
    }
  }

  lemma {:induction false} LeafDepth(f: seq<nat>, t: Forest, root: nat, B: nat, i: nat)
    requires HuffmanForest(f, t, {root}, B) && |f| <= root == |t.w| - 1 && i < |f| && f[i] > 0
    ensures |f| <= t.parent[i] < |t.w| && Depth(t.parent, i) == Depth(t.parent, t.parent[i]) + 1
  {
    assert Live(f, i, |t.w|);
  }

  method Depths(f: seq<nat>, parent: seq<nat>, root: nat, limit: nat, ghost t: Forest, ghost B: nat) returns (len: seq<nat>, over: bool)
    requires HuffmanForest(f, t, {root}, B) && |f| <= root == |t.w| - 1 && parent == t.parent
    ensures AreDepths(f, parent, |f|, len) && over == TooDeep(f, parent, |f|, limit)
  {
    var depth := InnerDepths(f, |f|, parent, root, t, B);
    over := false;
    len := Repeat(0, |f|);
    for i := 0 to |f|
      invariant AreDepths(f, parent, i, len) && over == TooDeep(f, parent, i, limit)
      invariant forall j :: i <= j < |f| ==> len[j] == 0
    {
      if f[i] != 0 {
        LeafDepth(f, t, root, B, i);
        var d := depth[parent[i]] + 1;
        if d > limit {
          over := true;
        }
        len := len[i := d % 256];
      }
    }
  }

  /** Depths within the limit make a complete code. */
  lemma {:induction false} LeavesSum(f: seq<nat>, t: Forest, root: nat, B: nat, len: lengths, n: nat)
    requires HuffmanForest(f, t, {root}, B) && n <= |f| <= root == |t.w| - 1
    requires |len| == |f| && forall i :: 0 <= i < |f| ==> len[i] == if f[i] > 0 then Depth(t.parent, i) else 0
    ensures CutSum(Cut(f, t, root, |f|), t.parent, n) == KraftSum(len, n)
    decreases n
  {
    hide HuffmanForest, Cut, Depth, Half;
    if n > 0 {
      LeavesSum(f, t, root, B, len, n - 1);
      LeafInCut(f, t, root, B, n - 1);
    }
  }

  lemma {:induction false} LeafInCut(f: seq<nat>, t: Forest, root: nat, B: nat, i: nat)
    requires HuffmanForest(f, t, {root}, B) && i < |f| <= root == |t.w| - 1
    ensures i in Cut(f, t, root, |f|) <==> f[i] > 0
    ensures f[i] > 0 ==> Depth(t.parent, i) > 0
  {
    if f[i] > 0 {
      LeafDepth(f, t, root, B, i);
    }
  }

  lemma {:induction false} DepthsAreComplete(f: seq<nat>, t: Forest, root: nat, B: nat, limit: nat, len: seq<nat>)
    requires HuffmanForest(f, t, {root}, B) && |f| <= root == |t.w| - 1 && limit <= MAXBITS
    requires AreDepths(f, t.parent, |f|, len) && !TooDeep(f, t.parent, |f|, limit)
    ensures forall i :: 0 <= i < |f| ==> len[i] <= limit && (len[i] > 0 <==> f[i] > 0) && (f[i] > 0 ==> len[i] == Depth(t.parent, i))
    ensures KraftSum(len, |f|) == 1.0
  {
    forall i | 0 <= i < |f|
      ensures len[i] <= limit && (len[i] > 0 <==> f[i] > 0) && (f[i] > 0 ==> len[i] == Depth(t.parent, i))
    {
      if f[i] > 0 {
        LeafDepth(f, t, root, B, i);
      }
    }
    LeavesSum(f, t, root, B, len, |f|);
    CutIsOne(f, t, root, B, |f|);
  }

  // ---- halving the frequencies comes to an end ----

  function Sum(f: seq<nat>, n: nat): nat
    requires n <= |f|
  {
    if n == 0 then 0 else Sum(f, n - 1) + f[n - 1]
  }

  lemma {:induction false} WeightIsSum(f: seq<nat>, n: nat)
    requires n <= |f|
    ensures Weight(Used(f, |f|), f, n) == Sum(f, n)
    decreases n
  {
    if n > 0 {
      WeightIsSum(f, n - 1);
      assert n - 1 in Used(f, |f|) <==> f[n - 1] > 0;
    }
  }

  lemma {:induction false} HalvedSum(f: seq<nat>, g: seq<nat>, n: nat)
    requires n <= |f| == |g| && forall i :: 0 <= i < |f| ==> g[i] == (f[i] + 1) / 2
    ensures Sum(g, n) <= Sum(f, n)
    ensures Sum(g, n) < Sum(f, n) || Sum(f, n) <= n
    decreases n
  {
    if n > 0 {
      HalvedSum(f, g, n - 1);
    }
  }

  lemma {:induction false} FibMonotonic(m: nat, n: nat)
    requires m <= n
    ensures Fib(m) <= Fib(n)
    decreases n
  {
    if m < n {
      FibMonotonic(m, n - 1);
    }
  }

  /** Too deep a tree is heavy. */
  lemma {:induction false} DeepIsHeavy(f: seq<nat>, t: Forest, root: nat, B: nat, limit: nat)
    requires HuffmanForest(f, t, {root}, B) && |f| <= root == |t.w| - 1 && TooDeep(f, t.parent, |f|, limit)
    requires Weight({root}, t.w, |t.w|) == Weight(Used(f, |f|), f, |f|)
    ensures Sum(f, |f|) >= Fib(limit + 3)
  {
    var i :| 0 <= i < |f| && f[i] > 0 && Depth(t.parent, i) > limit;
    DepthAndHeight(f, t, root, B, i);
    FibMonotonic(limit + 3, t.ht[root] + 2);
    assert Live(f, root, |t.w|);
    WeightIsSum(f, |f|);
    WeightWithout({root}, t.w, |t.w|, root);
    WeightSame({root} - {root}, {}, t.w, t.w, |t.w|);
    WeightNone(t.w, |t.w|);
  }

  lemma {:induction false} WeightNone(w: seq<nat>, n: nat)
    requires n <= |w|
    ensures Weight({}, w, n) == 0
  {
    if n > 0 {
      WeightNone(w, n - 1);
    }
  }

  /** The frequencies halved, those that are not zero to not less than one. */
  function HalvedOnce(f: seq<nat>): (g: seq<nat>)
    ensures |g| == |f|
  {
    seq(|f|, i requires 0 <= i < |f| => (f[i] + 1) / 2)
  }

  function Halved(f: seq<nat>, k: nat): (g: seq<nat>)
    ensures |g| == |f|
  {
    if k == 0 then f else HalvedOnce(Halved(f, k - 1))
  }

  // ---- lengths ----

  method CountUsed(f: seq<nat>) returns (used: nat, last: nat)
    ensures used == |Used(f, |f|)|
    ensures used > 0 ==> last in Used(f, |f|)
  {
    used, last := 0, 0;
    for i := 0 to |f|
      invariant used == |Used(f, i)| && (used > 0 ==> last in Used(f, i))
    {
      UsedNext(f, i);
      if f[i] != 0 {
        used, last := used + 1, i;
      }
    }
  }

  lemma {:induction false} KraftOfTwo(len: lengths, a: nat, b: nat, n: nat)
    requires n <= |len| && a != b
    requires forall i :: 0 <= i < |len| ==> len[i] == if i == a || i == b then 1 else 0
    ensures KraftSum(len, n) == (if a < n then 0.5 else 0.0) + if b < n then 0.5 else 0.0
    decreases n
  {
    if n > 0 {
      KraftOfTwo(len, a, b, n - 1);
      assert Half(1) == Half(0) / 2.0;
    }
  }

  /** What lengths promises: no code word is longer than the limit, all used symbols have one, and
      together with at most one more they use up the code space. */
  ghost predicate GoodLengths(freq: seq<nat>, limit: nat, len: seq<nat>)
  {
    && |len| == |freq| && limit <= MAXBITS
    && (forall i :: 0 <= i < |len| ==> len[i] <= limit)
    && (forall i :: 0 <= i < |len| && freq[i] > 0 ==> len[i] > 0)
    && (|Used(freq, |freq|)| != 1 ==> forall i :: 0 <= i < |len| && len[i] > 0 ==> freq[i] > 0)
    && (|Used(freq, |freq|)| > 0 ==> KraftSum(len, |len|) == 1.0)
  }

  /** Frequencies by which the same symbols are used. */
  lemma {:induction false} SameUse(f: seq<nat>, g: seq<nat>)
    requires |f| == |g| && forall i :: 0 <= i < |f| ==> (f[i] > 0 <==> g[i] > 0)
    ensures Used(f, |f|) == Used(g, |g|)
  {
  }

  lemma {:induction false} OneUsed(freq: seq<nat>, limit: nat, last: nat, len: seq<nat>)
    requires 2 <= |freq| && 1 <= limit <= MAXBITS && |Used(freq, |freq|)| == 1 && last in Used(freq, |freq|)
    requires len == Repeat(0, |freq|)[last := 1][if last == 0 then 1 else 0 := 1]
    ensures GoodLengths(freq, limit, len) && Shortest(freq, len)
  {
    var S := Used(freq, |freq|);
    assert |S - {last}| == 0;
    assert S == {last} + (S - {last});
    forall i | 0 <= i < |freq| && freq[i] > 0 ensures i == last {
      assert i in S;
    }
    KraftOfTwo(len, last, if last == 0 then 1 else 0, |len|);
    OneIsShortest(freq, len, last);
  }

  lemma {:induction false} NoneUsed(freq: seq<nat>, limit: nat)
    requires limit <= MAXBITS && |Used(freq, |freq|)| == 0
    ensures GoodLengths(freq, limit, Repeat(0, |freq|)) && Shortest(freq, Repeat(0, |freq|))
  {
    forall i | 0 <= i < |freq| ensures freq[i] == 0 {
      assert i !in Used(freq, |freq|);
    }
    NoneIsShortest(freq, Repeat(0, |freq|));
  }

  /** Lengths that are good for frequencies are so for others by which the same symbols are used. */
  lemma {:induction false} GoodForSame(f: seq<nat>, g: seq<nat>, limit: nat, len: seq<nat>)
    requires |f| == |g| && (forall i :: 0 <= i < |f| ==> (f[i] > 0 <==> g[i] > 0)) && GoodLengths(f, limit, len)
    ensures GoodLengths(g, limit, len)
  {
    SameUse(f, g);
  }

  /** The frequencies after so many halvings, which were not made without need. */
  ghost predicate Tried(f: seq<nat>, freq: seq<nat>, halvings: nat, limit: nat)
  {
    && |f| == |freq| && (forall i :: 0 <= i < |f| ==> (f[i] > 0 <==> freq[i] > 0)) && f == Halved(freq, halvings)
    && (forall i :: 0 <= i < |f| ==> f[i] < 0xffff_ffff) && (Sum(freq, |freq|) < Fib(limit + 3) ==> halvings == 0)
  }

  lemma {:induction false} StartTrying(freq: seq<nat>, limit: nat)
    requires forall i :: 0 <= i < |freq| ==> freq[i] < 0xffff_ffff
    ensures Tried(freq, freq, 0, limit)
  {
  }

  lemma {:induction false} Weighable(f: seq<nat>, freq: seq<nat>, halvings: nat, limit: nat)
    requires Tried(f, freq, halvings, limit)
    ensures forall i :: 0 <= i < |f| ==> f[i] < 0xffff_ffff
  {
  }

  lemma {:induction false} Done(f: seq<nat>, freq: seq<nat>, halvings: nat, limit: nat, len: seq<nat>)
    requires Tried(f, freq, halvings, limit) && GoodLengths(f, limit, len) && Shortest(f, len)
    ensures GoodLengths(freq, limit, len) && Shortest(Halved(freq, halvings), len)
    ensures Sum(freq, |freq|) < Fib(limit + 3) ==> halvings == 0
    ensures forall i :: 0 <= i < |len| ==> len[i] <= MAXBITS
  {
    hide Shortest, Halved, Sum, Fib;
    GoodForSame(f, freq, limit, len);
  }

  lemma {:induction false} NoneDone(f: seq<nat>, freq: seq<nat>, halvings: nat, limit: nat)
    requires Tried(f, freq, halvings, limit) && limit <= MAXBITS && |Used(f, |f|)| == 0
    ensures GoodLengths(freq, limit, Repeat(0, |freq|)) && Shortest(Halved(freq, halvings), Repeat(0, |freq|))
    ensures Sum(freq, |freq|) < Fib(limit + 3) ==> halvings == 0
  {
    hide *;
    NoneUsed(f, limit);
    TriedSize(f, freq, halvings, limit);
    Done(f, freq, halvings, limit, Repeat(0, |freq|));
  }

  lemma {:induction false} TriedSize(f: seq<nat>, freq: seq<nat>, halvings: nat, limit: nat)
    requires Tried(f, freq, halvings, limit)
    ensures |f| == |freq|
  {
  }

  lemma {:induction false} OneDone(f: seq<nat>, freq: seq<nat>, halvings: nat, limit: nat, last: nat)
    requires Tried(f, freq, halvings, limit) && 2 <= |freq| && 1 <= limit <= MAXBITS
    requires |Used(f, |f|)| == 1 && last in Used(f, |f|) && last < |freq|
    ensures
      var len := Repeat(0, |freq|)[last := 1][if last == 0 then 1 else 0 := 1];
      GoodLengths(freq, limit, len) && Shortest(Halved(freq, halvings), len)
    ensures Sum(freq, |freq|) < Fib(limit + 3) ==> halvings == 0
  {
    hide *;
    TriedSize(f, freq, halvings, limit);
    var len := Repeat(0, |freq|)[last := 1][if last == 0 then 1 else 0 := 1];
    OneUsed(f, limit, last, len);
    Done(f, freq, halvings, limit, len);
  }

  lemma {:induction false} TriedAgain(f: seq<nat>, freq: seq<nat>, halvings: nat, limit: nat, g: seq<nat>)
    requires Tried(f, freq, halvings, limit) && Sum(f, |f|) >= Fib(limit + 3)
    requires |g| == |f| && forall i :: 0 <= i < |f| ==> g[i] == (f[i] + 1) / 2
    ensures Tried(g, freq, halvings + 1, limit)
  {
    hide Sum, Fib;
    assert g == HalvedOnce(f);
    assert halvings == 0 ==> f == freq;
  }

  /** Code lengths for the frequencies, none longer than limit: 15 for up to 2583 symbols, 7 for up
      to 54.  No code is shorter for the frequencies, if they did not have to be halved, and that they
      do not have to be when their sum is small; otherwise none is shorter for what they were halved
      to.  freq + 1 does not overflow the 32 bits of an unsigned. */
  method Lengths(freq: seq<nat>, limit: nat) returns (len: lengths, ghost halvings: nat)
    requires 2 <= |freq| <= 320 && 1 <= limit <= MAXBITS && |freq| < Fib(limit + 3)
    requires forall i :: 0 <= i < |freq| ==> freq[i] < 0xffff_ffff
    ensures GoodLengths(freq, limit, len)
    ensures Shortest(Halved(freq, halvings), len)
    ensures Sum(freq, |freq|) < Fib(limit + 3) ==> halvings == 0
  {
    hide *;
    var f := freq;
    halvings := 0;
    StartTrying(freq, limit);
    while true
      invariant |f| == |freq| && Tried(f, freq, halvings, limit)
      decreases Sum(f, |f|)
    {
      var used, last := CountUsed(f);
      if used == 0 {
        NoneDone(f, freq, halvings, limit);
        len := Repeat(0, |freq|);
        return;
      }
      if used == 1 {
        LastInside(f, last);
        OneDone(f, freq, halvings, limit, last);
        len := Repeat(0, |freq|)[last := 1][if last == 0 then 1 else 0 := 1];
        return;
      }
      Weighable(f, freq, halvings, limit);
      var l, over, g := Attempt(f, limit);
      if !over {
        Done(f, freq, halvings, limit, l);
        len := l;
        return;
      }
      TriedAgain(f, freq, halvings, limit, g);
      f := g;
      halvings := halvings + 1;
    }
  }

  lemma {:induction false} LastInside(f: seq<nat>, last: nat)
    requires last in Used(f, |f|)
    ensures last < |f|
  {
  }

  /** One pass of lengths: the depths in the Huffman tree of f, or halved frequencies. */
  method Attempt(f: seq<nat>, limit: nat) returns (len: seq<nat>, over: bool, g: seq<nat>)
    requires |f| < Fib(limit + 3) && limit <= MAXBITS && |Used(f, |f|)| >= 2
    requires forall i :: 0 <= i < |f| ==> f[i] < 0xffff_ffff
    ensures !over ==> GoodLengths(f, limit, len) && Shortest(f, len)
    ensures over ==> Sum(f, |f|) >= Fib(limit + 3) && |g| == |f| && Sum(g, |g|) < Sum(f, |f|)
    ensures over ==> forall i :: 0 <= i < |f| ==> g[i] == (f[i] + 1) / 2
  {
    var parent, root;
    ghost var t, B;
    parent, root, t, B := MakeTree(f);
    len, over := Depths(f, parent, root, limit, t, B);
    g := f;
    if over {
      g := HalveAll(f);
      DeepIsHeavy(f, t, root, B, limit);
      HalvedSum(f, g, |f|);
    } else {
      DepthsAreComplete(f, t, root, B, limit, len);
      DepthsAreShortest(f, t, root, B, len);
    }
  }

  method HalveAll(f: seq<nat>) returns (g: seq<nat>)
    ensures |g| == |f| && forall i :: 0 <= i < |f| ==> g[i] == (f[i] + 1) / 2
  {
    g := f;
    for i := 0 to |f|
      invariant |g| == |f| && forall j :: 0 <= j < |f| ==> g[j] == if j < i then (f[j] + 1) / 2 else f[j]
    {
      if f[i] != 0 {
        g := g[i := (f[i] + 1) / 2];
      }
    }
  }
}
