/** cp -R's way through the directories of an unchanging tree, with links followed, to a target, on two
    stacks of open directories. */
module CopyWalk {
  import opened Options
  import opened OpenDirs

  /** A directory in a directory: there, or where a link leads. */
  datatype Entry = Entry(target: Dir, viaLink: bool)

  type Tree = map<Dir, seq<Entry>>

  /** What happens; a directory above may be found to have moved. */
  datatype Event = Entered(dir: Dir, target: Dir) | Cycle(dir: Dir) | Moved(dir: Dir)

  /** The target for an entry is in the target of its directory; it is never a link. */
  ghost predicate Inside(into: (Dir, nat) -> Dir, up: Dir -> Dir)
  {
    forall t, i :: up(into(t, i)) == t
  }

  ghost predicate Closed(tree: Tree)
  {
    forall d, i :: d in tree && 0 <= i < |tree[d]| ==> tree[d][i].target in tree
  }

  /** ".." of a directory that is not behind a link is the one it is in. */
  ghost predicate Upward(tree: Tree, up: Dir -> Dir)
  {
    forall d, i :: d in tree && 0 <= i < |tree[d]| && !tree[d][i].viaLink ==> up(tree[d][i].target) == d
  }

  ghost predicate AllIn(tree: Tree, entries: seq<Entry>)
  {
    forall i :: 0 <= i < |entries| ==> entries[i].target in tree
  }

  ghost function Left(tree: Tree, path: seq<Dir>): set<Dir>
  {
    set d | d in tree && d !in path
  }

  lemma {:induction false} FewerLeft(tree: Tree, path: seq<Dir>, d: Dir)
    requires d in tree && d !in path
    ensures Left(tree, path + [d]) < Left(tree, path)
  {
    assert d in path + [d];
    assert d in Left(tree, path);
  }

  /** What a copy does: it goes into each directory, by any of its names, but not into one it is in. */
  ghost function Walk(tree: Tree, into: (Dir, nat) -> Dir, path: seq<Dir>, d: Dir, t: Dir): seq<Event>
    requires Closed(tree) && d in tree && d !in path
    decreases Left(tree, path), 0, 0
  {
    FewerLeft(tree, path, d);
    [Entered(d, t)] + WalkAll(tree, into, path + [d], tree[d], t, 0)
  }

  /** The entries from i on. */
  ghost function WalkAll(tree: Tree, into: (Dir, nat) -> Dir, path: seq<Dir>, entries: seq<Entry>, t: Dir, i: nat): seq<Event>
    requires Closed(tree) && AllIn(tree, entries) && i <= |entries|
    decreases Left(tree, path), 1, |entries| - i
  {
    if i == |entries| then []
    else
      var d := entries[i].target;
      (if d in path then [Cycle(d)] else Walk(tree, into, path, d, into(t, i))) + WalkAll(tree, into, path, entries, t, i + 1)
  }

  // ---- everything is reached ----

  ghost predicate Step(tree: Tree, d: Dir, e: Dir)
  {
    d in tree && exists i :: 0 <= i < |tree[d]| && tree[d][i].target == e
  }

  ghost predicate Chain(tree: Tree, c: seq<Dir>)
  {
    c != [] && c[0] in tree && forall i :: 0 <= i < |c| - 1 ==> Step(tree, c[i], c[i + 1])
  }

  ghost predicate EnteredIn(events: seq<Event>, d: Dir)
  {
    exists t :: Entered(d, t) in events
  }

  lemma {:induction false} WalkedOne(tree: Tree, into: (Dir, nat) -> Dir, path: seq<Dir>, entries: seq<Entry>, t: Dir, i: nat, k: nat, d: Dir)
    requires Closed(tree) && AllIn(tree, entries) && i <= k < |entries| && entries[k].target !in path
    requires EnteredIn(Walk(tree, into, path, entries[k].target, into(t, k)), d)
    ensures EnteredIn(WalkAll(tree, into, path, entries, t, i), d)
    decreases k - i
  {
    hide Walk;
    if i < k {
      WalkedOne(tree, into, path, entries, t, i + 1, k, d);
      var u :| Entered(d, u) in WalkAll(tree, into, path, entries, t, i + 1);
      assert Entered(d, u) in WalkAll(tree, into, path, entries, t, i);
    } else {
      var u :| Entered(d, u) in Walk(tree, into, path, entries[k].target, into(t, k));
      assert Entered(d, u) in WalkAll(tree, into, path, entries, t, i);
    }
  }

  lemma {:induction false} SimplyReached(tree: Tree, into: (Dir, nat) -> Dir, path: seq<Dir>, c: seq<Dir>, t: Dir)
    requires Closed(tree) && Chain(tree, c)
    requires forall i :: 0 <= i < |c| ==> c[i] !in path
    requires forall i, j :: 0 <= i < j < |c| ==> c[i] != c[j]
    ensures EnteredIn(Walk(tree, into, path, c[0], t), c[|c| - 1])
    decreases |c|
  {
    if |c| > 1 {
      assert Step(tree, c[0], c[1]);
      var k :| 0 <= k < |tree[c[0]]| && tree[c[0]][k].target == c[1];
      forall i | 0 <= i < |c| - 2
        ensures Step(tree, c[1..][i], c[1..][i + 1])
      {
        assert Step(tree, c[i + 1], c[i + 2]);
      }
      SimplyReached(tree, into, path + [c[0]], c[1..], into(t, k));
      WalkedOne(tree, into, path + [c[0]], tree[c[0]], t, 0, k, c[|c| - 1]);
      var u :| Entered(c[|c| - 1], u) in WalkAll(tree, into, path + [c[0]], tree[c[0]], t, 0);
      assert Entered(c[|c| - 1], u) in Walk(tree, into, path, c[0], t);
    } else {
      assert Entered(c[0], t) in Walk(tree, into, path, c[0], t);
    }
  }

  /** A way there, cut short where it comes to the same place twice. */
  lemma {:induction false} Shortened(tree: Tree, c: seq<Dir>) returns (r: seq<Dir>)
    requires Chain(tree, c)
    ensures Chain(tree, r) && r[0] == c[0] && r[|r| - 1] == c[|c| - 1]
    ensures forall i, j :: 0 <= i < j < |r| ==> r[i] != r[j]
    decreases |c|
  {
    if i, j :| 0 <= i < j < |c| && c[i] == c[j] {
      var s := c[..i] + c[j..];
      forall k | 0 <= k < |s| - 1
        ensures Step(tree, s[k], s[k + 1])
      {
        if k < i {
          assert Step(tree, c[k], c[k + 1]);
        } else {
          assert Step(tree, c[k - i + j], c[k - i + j + 1]);
        }
      }
      r := Shortened(tree, s);
    } else {
      r := c;
    }
  }

  /** A copy goes into every directory there is a way to, links and cycles or not. */
  lemma {:induction false} EverythingReached(tree: Tree, into: (Dir, nat) -> Dir, c: seq<Dir>, t: Dir)
    requires Closed(tree) && Chain(tree, c)
    ensures EnteredIn(Walk(tree, into, [], c[0], t), c[|c| - 1])
  {
    var r := Shortened(tree, c);
    SimplyReached(tree, into, [], r, t);
  }

  // ---- the walk ----

  /** Whether the walk is in the directory already. */
  method InStack(s: Stack, d: Dir) returns (found: bool)
    ensures found == (d in Dirs(s.lv))
  {
    for i := 0 to |s.lv|
      invariant forall j :: 0 <= j < i ==> s.lv[j].dir != d
    {
      if s.lv[i].dir == d {
        assert Dirs(s.lv)[i] == d;
        return true;
      }
    }
    found := false;
  }

  lemma {:induction false} NextOf(tree: Tree, into: (Dir, nat) -> Dir, path: seq<Dir>, entries: seq<Entry>, t: Dir, i: nat, visited: seq<Event>)
    requires Closed(tree) && AllIn(tree, entries) && i < |entries|
    ensures
      var d := entries[i].target;
      visited + WalkAll(tree, into, path, entries, t, i)
        == visited + (if d in path then [Cycle(d)] else Walk(tree, into, path, d, into(t, i))) + WalkAll(tree, into, path, entries, t, i + 1)
  {
    hide Walk;
  }

  lemma {:induction false} EndOf(tree: Tree, into: (Dir, nat) -> Dir, path: seq<Dir>, entries: seq<Entry>, t: Dir, visited: seq<Event>)
    requires Closed(tree) && AllIn(tree, entries)
    ensures visited + WalkAll(tree, into, path, entries, t, |entries|) == visited
  {
  }

  lemma {:induction false} StartOf(tree: Tree, into: (Dir, nat) -> Dir, path: seq<Dir>, d: Dir, t: Dir)
    requires Closed(tree) && d in tree && d !in path
    ensures Walk(tree, into, path, d, t) == [Entered(d, t)] + WalkAll(tree, into, path + [d], tree[d], t, 0)
  {
  }

  lemma {:induction false} TopOpen(lv: seq<Level>, up: Dir -> Dir, path: seq<Dir>, d: Dir)
    requires Sound(lv, up) && Dirs(lv) == path + [d]
    ensures |lv| == |path| + 1 && lv[|path|].dir == d && lv[|path|].fd == Some(d)
  {
    assert (path + [d])[|path|] == d;
  }

  /** A directory can be pushed: ".." of it is the top, or the top stays open. */
  ghost predicate Below(lv: seq<Level>, up: Dir -> Dir, d: Dir)
  {
    lv == [] || lv[|lv| - 1].pinned || up(d) == lv[|lv| - 1].dir
  }

  /** copy_dir: however the stacks stood, afterwards they are on the same directories, the top ones open,
      no ".." has led anywhere else, and all were gone through by their own descriptors. */
  method CopyDir(tree: Tree, up: Dir -> Dir, into: (Dir, nat) -> Dir, src: Stack, dst: Stack, d: Dir, t: Dir) returns (visited: seq<Event>)
    requires Closed(tree) && Upward(tree, up) && Inside(into, up) && src != dst && src.Valid(up) && dst.Valid(up)
    requires d in tree && d !in Dirs(src.lv) && Below(src.lv, up, d) && Below(dst.lv, up, t)
    modifies src, dst
    ensures src.Valid(up) && Dirs(src.lv) == old(Dirs(src.lv)) && dst.Valid(up) && Dirs(dst.lv) == old(Dirs(dst.lv))
    ensures visited == Walk(tree, into, old(Dirs(src.lv)), d, t)
    decreases Left(tree, Dirs(src.lv)), 0, 0
  {
    hide Walk, WalkAll, Left, Sound, Few, Inside;
    ghost var path, above := Dirs(src.lv), Dirs(dst.lv);
    FewerLeft(tree, path, d);
    var n := |tree[d]|;
    src.Push(d, up);
    dst.Push(t, up);
    visited := [Entered(d, t)];
    StartOf(tree, into, path, d, t);
    for i := 0 to n
      invariant src.Valid(up) && Dirs(src.lv) == path + [d] && dst.Valid(up) && Dirs(dst.lv) == above + [t]
      invariant visited + WalkAll(tree, into, path + [d], tree[d], t, i) == Walk(tree, into, path, d, t)
    {
      TopOpen(src.lv, up, path, d);
      TopOpen(dst.lv, up, above, t);
      var here, there := src.lv[|src.lv| - 1].fd, dst.lv[|dst.lv| - 1].fd;
      if here.Some? && there.Some? {
        NextOf(tree, into, path + [d], tree[d], t, i, visited);
        var more := CopyEntry(tree, up, into, src, dst, here.value, there.value, i);
        visited := visited + more;
      }
    }
    EndOf(tree, into, path + [d], tree[d], t, visited);
    var ok := dst.Pop(up);
    var ok' := src.Pop(up);
    assert (path + [d])[..|path|] == path && (above + [t])[..|above|] == above;
    if !(ok && ok') {
      visited := visited + [Moved(d)];
    }
  }

  /** copy_file, for a directory: it is in here, or a link to it is. */
  method CopyEntry(tree: Tree, up: Dir -> Dir, into: (Dir, nat) -> Dir, src: Stack, dst: Stack, here: Dir, there: Dir, i: nat)
    returns (visited: seq<Event>)
    requires Closed(tree) && Upward(tree, up) && Inside(into, up) && src != dst && src.Valid(up) && dst.Valid(up)
    requires src.lv != [] && dst.lv != [] && here in tree && i < |tree[here]|
    requires here == src.lv[|src.lv| - 1].dir && there == dst.lv[|dst.lv| - 1].dir
    modifies src, dst
    ensures src.Valid(up) && Dirs(src.lv) == old(Dirs(src.lv)) && dst.Valid(up) && Dirs(dst.lv) == old(Dirs(dst.lv))
    ensures var d := tree[here][i].target;
      visited == if d in old(Dirs(src.lv)) then [Cycle(d)] else Walk(tree, into, old(Dirs(src.lv)), d, into(there, i))
    decreases Left(tree, Dirs(src.lv)), 1, 0
  {
    hide Walk, Left, Sound, Few;
    var e := tree[here][i];
    var found := InStack(src, e.target);
    if found {
      return [Cycle(e.target)];
    }
    if e.viaLink {
      src.Pin(up);
    }
    visited := CopyDir(tree, up, into, src, dst, e.target, into(there, i));
  }

  /** A copy of a directory: it ends. */
  method Copy(tree: Tree, up: Dir -> Dir, into: (Dir, nat) -> Dir, d: Dir, t: Dir, max: nat) returns (visited: seq<Event>)
    requires Closed(tree) && Upward(tree, up) && Inside(into, up) && d in tree
    ensures visited == Walk(tree, into, [], d, t)
  {
    var src := new Stack(max);
    var dst := new Stack(max);
    visited := CopyDir(tree, up, into, src, dst, d, t);
  }
}
