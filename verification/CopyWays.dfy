/** Just where a copy goes: along every way that does not come to a directory twice, and to the target
    that the entries on this way lead to. */
module CopyWays {
  import opened OpenDirs
  import opened CopyWalk

  /** The directories c, each the entry of the one before that ks gives, all different and none of those
      in path. */
  ghost predicate Way(tree: Tree, path: seq<Dir>, c: seq<Dir>, ks: seq<nat>)
  {
    && |c| == |ks| + 1
    && (forall i :: 0 <= i < |ks| ==> c[i] in tree && ks[i] < |tree[c[i]]| && tree[c[i]][ks[i]].target == c[i + 1])
    && (forall i, j :: 0 <= i < j < |c| ==> c[i] != c[j])
    && (forall i :: 0 <= i < |c| ==> c[i] !in path)
  }

  ghost function TargetOf(into: (Dir, nat) -> Dir, t: Dir, ks: seq<nat>): Dir
    decreases |ks|
  {
    if ks == [] then t else TargetOf(into, into(t, ks[0]), ks[1..])
  }

  lemma {:induction false} WayFirst(tree: Tree, path: seq<Dir>, d: Dir, k: nat, c: seq<Dir>, ks: seq<nat>)
    requires d in tree && d !in path && k < |tree[d]| && Way(tree, path + [d], c, ks) && tree[d][k].target == c[0]
    ensures Way(tree, path, [d] + c, [k] + ks)
  {
    var b, js := [d] + c, [k] + ks;
    assert d in path + [d] && forall x :: x in path ==> x in path + [d];
    forall i | 0 <= i < |js|
      ensures b[i] in tree && js[i] < |tree[b[i]]| && tree[b[i]][js[i]].target == b[i + 1]
    {
      if i > 0 {
        assert b[i] == c[i - 1] && b[i + 1] == c[i] && js[i] == ks[i - 1];
      }
    }
  }

  lemma {:induction false} WayRest(tree: Tree, path: seq<Dir>, c: seq<Dir>, ks: seq<nat>)
    requires Way(tree, path, c, ks) && ks != []
    ensures Way(tree, path + [c[0]], c[1..], ks[1..]) && c[0] in tree && ks[0] < |tree[c[0]]| && tree[c[0]][ks[0]].target == c[1]
  {
    var b, js := c[1..], ks[1..];
    forall i | 0 <= i < |js|
      ensures b[i] in tree && js[i] < |tree[b[i]]| && tree[b[i]][js[i]].target == b[i + 1]
    {
      assert b[i] == c[i + 1] && js[i] == ks[i + 1] && b[i + 1] == c[i + 2];
    }
  }

  // ---- what happens in some entry ----

  lemma {:induction false} InSome(tree: Tree, into: (Dir, nat) -> Dir, path: seq<Dir>, entries: seq<Entry>, t: Dir, i: nat, e: Event) returns (k: nat)
    requires Closed(tree) && AllIn(tree, entries) && i <= |entries| && e in WalkAll(tree, into, path, entries, t, i)
    ensures i <= k < |entries|
    ensures var d := entries[k].target; if d in path then e == Cycle(d) else e in Walk(tree, into, path, d, into(t, k))
    decreases |entries| - i
  {
    hide Walk;
    var d := entries[i].target;
    if e in (if d in path then [Cycle(d)] else Walk(tree, into, path, d, into(t, i))) {
      k := i;
    } else {
      k := InSome(tree, into, path, entries, t, i + 1, e);
    }
  }

  lemma {:induction false} InAll(tree: Tree, into: (Dir, nat) -> Dir, path: seq<Dir>, entries: seq<Entry>, t: Dir, i: nat, k: nat, e: Event)
    requires Closed(tree) && AllIn(tree, entries) && i <= k < |entries|
    requires var d := entries[k].target; if d in path then e == Cycle(d) else e in Walk(tree, into, path, d, into(t, k))
    ensures e in WalkAll(tree, into, path, entries, t, i)
    decreases k - i
  {
    hide Walk;
    if i < k {
      InAll(tree, into, path, entries, t, i + 1, k, e);
    }
  }

  /** What happens in a directory is that it is entered, or happens in one of its entries. */
  lemma {:induction false} InWalk(tree: Tree, into: (Dir, nat) -> Dir, path: seq<Dir>, d: Dir, t: Dir, e: Event)
    requires Closed(tree) && d in tree && d !in path
    ensures e in Walk(tree, into, path, d, t) <==> e == Entered(d, t) || e in WalkAll(tree, into, path + [d], tree[d], t, 0)
  {
    hide WalkAll;
    StartOf(tree, into, path, d, t);
  }

  // ---- directories that are entered ----

  lemma {:induction false} EnteredAlong(tree: Tree, into: (Dir, nat) -> Dir, path: seq<Dir>, d: Dir, t: Dir, e: Dir, u: Dir)
    returns (c: seq<Dir>, ks: seq<nat>)
    requires Closed(tree) && d in tree && d !in path && Entered(e, u) in Walk(tree, into, path, d, t)
    ensures Way(tree, path, c, ks) && c[0] == d && c[|c| - 1] == e && u == TargetOf(into, t, ks)
    decreases Left(tree, path)
  {
    hide Walk, WalkAll, Left;
    InWalk(tree, into, path, d, t, Entered(e, u));
    if Entered(e, u) == Entered(d, t) {
      c, ks := [d], [];
    } else {
      var k := InSome(tree, into, path + [d], tree[d], t, 0, Entered(e, u));
      FewerLeft(tree, path, d);
      var b, js := EnteredAlong(tree, into, path + [d], tree[d][k].target, into(t, k), e, u);
      c, ks := [d] + b, [k] + js;
      WayFirst(tree, path, d, k, b, js);
      assert ks[1..] == js;
    }
  }

  lemma {:induction false} AlongEntered(tree: Tree, into: (Dir, nat) -> Dir, path: seq<Dir>, c: seq<Dir>, ks: seq<nat>, t: Dir)
    requires Closed(tree) && Way(tree, path, c, ks) && c[0] in tree
    ensures Entered(c[|c| - 1], TargetOf(into, t, ks)) in Walk(tree, into, path, c[0], t)
    decreases |c|
  {
    hide Walk, WalkAll;
    var e := Entered(c[|c| - 1], TargetOf(into, t, ks));
    InWalk(tree, into, path, c[0], t, e);
    if ks != [] {
      WayRest(tree, path, c, ks);
      AlongEntered(tree, into, path + [c[0]], c[1..], ks[1..], into(t, ks[0]));
      InAll(tree, into, path + [c[0]], tree[c[0]], t, 0, ks[0], e);
    }
  }

  /** A way from d, for which the target is t, to e, for which it is u. */
  ghost predicate LeadsTo(tree: Tree, into: (Dir, nat) -> Dir, d: Dir, t: Dir, e: Dir, u: Dir, c: seq<Dir>, ks: seq<nat>)
  {
    Way(tree, [], c, ks) && c[0] == d && c[|c| - 1] == e && u == TargetOf(into, t, ks)
  }

  /** A directory is entered, with this target, if and only if there is such a way to it. */
  lemma {:induction false} EnteredIff(tree: Tree, into: (Dir, nat) -> Dir, d: Dir, t: Dir, e: Dir, u: Dir)
    requires Closed(tree) && d in tree
    ensures Entered(e, u) in Walk(tree, into, [], d, t) <==> exists c, ks :: LeadsTo(tree, into, d, t, e, u, c, ks)
  {
    hide Walk, Way, TargetOf;
    if Entered(e, u) in Walk(tree, into, [], d, t) {
      var c, ks := EnteredAlong(tree, into, [], d, t, e, u);
      assert LeadsTo(tree, into, d, t, e, u, c, ks);
    } else if c, ks :| LeadsTo(tree, into, d, t, e, u, c, ks) {
      AlongEntered(tree, into, [], c, ks, t);
    }
  }

  // ---- cycles that are reported ----

  lemma {:induction false} CycleAlong(tree: Tree, into: (Dir, nat) -> Dir, path: seq<Dir>, d: Dir, t: Dir, e: Dir)
    returns (c: seq<Dir>, ks: seq<nat>)
    requires Closed(tree) && d in tree && d !in path && Cycle(e) in Walk(tree, into, path, d, t)
    ensures Way(tree, path, c, ks) && c[0] == d && Step(tree, c[|c| - 1], e) && e in path + c
    decreases Left(tree, path)
  {
    hide Walk, WalkAll, Left;
    InWalk(tree, into, path, d, t, Cycle(e));
    var k := InSome(tree, into, path + [d], tree[d], t, 0, Cycle(e));
    var x := tree[d][k].target;
    if x in path + [d] {
      c, ks := [d], [];
      assert Step(tree, d, x);
    } else {
      FewerLeft(tree, path, d);
      var b, js := CycleAlong(tree, into, path + [d], x, into(t, k), e);
      c, ks := [d] + b, [k] + js;
      WayFirst(tree, path, d, k, b, js);
      assert path + [d] + b == path + c;
    }
  }

  lemma {:induction false} AlongCycle(tree: Tree, into: (Dir, nat) -> Dir, path: seq<Dir>, c: seq<Dir>, ks: seq<nat>, t: Dir, e: Dir)
    requires Closed(tree) && Way(tree, path, c, ks) && c[0] in tree && Step(tree, c[|c| - 1], e) && e in path + c
    ensures Cycle(e) in Walk(tree, into, path, c[0], t)
    decreases |c|
  {
    hide Walk, WalkAll;
    InWalk(tree, into, path, c[0], t, Cycle(e));
    if ks == [] {
      var k :| 0 <= k < |tree[c[0]]| && tree[c[0]][k].target == e;
      assert c == [c[0]];
      InAll(tree, into, path + [c[0]], tree[c[0]], t, 0, k, Cycle(e));
    } else {
      WayRest(tree, path, c, ks);
      assert path + [c[0]] + c[1..] == path + c;
      AlongCycle(tree, into, path + [c[0]], c[1..], ks[1..], into(t, ks[0]), e);
      InAll(tree, into, path + [c[0]], tree[c[0]], t, 0, ks[0], Cycle(e));
    }
  }

  /** A way from d to a directory with an entry for e, which is on the way. */
  ghost predicate LeadsBack(tree: Tree, d: Dir, e: Dir, c: seq<Dir>, ks: seq<nat>)
  {
    Way(tree, [], c, ks) && c[0] == d && Step(tree, c[|c| - 1], e) && e in c
  }

  /** A cycle is reported if and only if there is such a way. */
  lemma {:induction false} CycleIff(tree: Tree, into: (Dir, nat) -> Dir, d: Dir, t: Dir, e: Dir)
    requires Closed(tree) && d in tree
    ensures Cycle(e) in Walk(tree, into, [], d, t) <==> exists c, ks :: LeadsBack(tree, d, e, c, ks)
  {
    hide Walk, Way, Step;
    if Cycle(e) in Walk(tree, into, [], d, t) {
      var c, ks := CycleAlong(tree, into, [], d, t, e);
      assert [] + c == c;
      assert LeadsBack(tree, d, e, c, ks);
    } else if c, ks :| LeadsBack(tree, d, e, c, ks) {
      assert [] + c == c;
      AlongCycle(tree, into, [], c, ks, t, e);
    }
  }
}
