/** cp/cp.c's stack of open directories: a walk goes down any number of levels with few of them open,
    and comes back up through "..". */
module OpenDirs {
  import opened Options

  type Dir = nat

  /** A level: the directory its descriptor is open on, if it is, and the directory it is for. */
  datatype Level = Level(fd: Option<Dir>, dir: Dir, pinned: bool)

  function OpenCount(lv: seq<Level>): nat
  {
    if lv == [] then 0 else OpenCount(lv[..|lv| - 1]) + (if lv[|lv| - 1].fd.Some? then 1 else 0)
  }

  predicate Closable(l: Level)
  {
    l.fd.Some? && !l.pinned
  }

  /** Each open level is open on its own directory, and the top one is; what is pinned is open, and what
      is not is where ".." of the next leads. */
  ghost predicate Sound(lv: seq<Level>, up: Dir -> Dir)
  {
    && (forall i :: 0 <= i < |lv| && lv[i].fd.Some? ==> lv[i].fd.value == lv[i].dir)
    && (forall i :: 0 <= i < |lv| && lv[i].pinned ==> lv[i].fd.Some?)
    && (lv != [] ==> lv[|lv| - 1].fd.Some?)
    && (forall i :: 0 <= i < |lv| - 1 && !lv[i].pinned ==> up(lv[i + 1].dir) == lv[i].dir)
  }

  /** No more are open than allowed, unless all of them but the top one are pinned. */
  ghost predicate Few(lv: seq<Level>, max: nat)
  {
    OpenCount(lv) <= max || forall i :: 0 <= i < |lv| - 1 ==> !Closable(lv[i])
  }

  function Dirs(lv: seq<Level>): (dirs: seq<Dir>)
    ensures |dirs| == |lv|
  {
    seq(|lv|, i requires 0 <= i < |lv| => lv[i].dir)
  }

  lemma {:induction false} CountOneMore(lv: seq<Level>, l: Level)
    ensures OpenCount(lv + [l]) == OpenCount(lv) + (if l.fd.Some? then 1 else 0)
  {
    assert (lv + [l])[..|lv|] == lv;
  }

  /** Changing one level changes the count by what it was and is. */
  lemma {:induction false} CountChanged(lv: seq<Level>, i: nat, l: Level)
    requires i < |lv|
    ensures OpenCount(lv[i := l]) + (if lv[i].fd.Some? then 1 else 0) == OpenCount(lv) + (if l.fd.Some? then 1 else 0)
    decreases |lv|
  {
    var n := |lv| - 1;
    if i == n {
      assert lv[i := l][..n] == lv[..n];
    } else {
      assert lv[i := l][..n] == lv[..n][i := l];
      CountChanged(lv[..n], i, l);
    }
  }

  function Shut(l: Level): Level
  {
    l.(fd := None)
  }

  function Opened(l: Level): Level
  {
    l.(fd := Some(l.dir))
  }

  lemma {:induction false} PushKeeps(lv: seq<Level>, up: Dir -> Dir, dir: Dir)
    requires Sound(lv, up) && (lv == [] || lv[|lv| - 1].pinned || up(dir) == lv[|lv| - 1].dir)
    ensures Sound(lv + [Level(Some(dir), dir, false)], up)
    ensures OpenCount(lv + [Level(Some(dir), dir, false)]) == OpenCount(lv) + 1
  {
    CountOneMore(lv, Level(Some(dir), dir, false));
  }

  lemma {:induction false} ShutKeeps(lv: seq<Level>, up: Dir -> Dir, i: nat)
    requires Sound(lv, up) && i < |lv| - 1 && Closable(lv[i])
    ensures Sound(lv[i := Shut(lv[i])], up) && OpenCount(lv[i := Shut(lv[i])]) == OpenCount(lv) - 1
  {
    hide OpenCount;
    CountChanged(lv, i, Shut(lv[i]));
  }

  /** When one too many are open and only one level is new, closing one is enough. */
  lemma {:induction false} ShutEnough(lv: seq<Level>, l: Level, max: nat, i: nat)
    requires Few(lv, max) && l.fd.Some? && i < |lv| && Closable(lv[i]) && forall j :: 0 <= j < i ==> !Closable(lv[j])
    ensures Few((lv + [l])[i := Shut(lv[i])], max)
  {
    hide OpenCount;
    CountOneMore(lv, l);
    CountChanged(lv + [l], i, Shut(lv[i]));
    if OpenCount(lv) > max {
      assert i == |lv| - 1;
    }
  }

  /** The level below the top is opened again, or was open, and the top is left. */
  lemma {:induction false} PopKeeps(lv: seq<Level>, up: Dir -> Dir, max: nat)
    requires Sound(lv, up) && Few(lv, max) && |lv| >= 2
    ensures
      var n := |lv| - 1;
      var below := lv[..n - 1] + [Opened(lv[n - 1])];
      Sound(below, up) && Few(below, max) && OpenCount(below) == OpenCount(lv) - (if lv[n - 1].fd.Some? then 1 else 0)
  {
    var n := |lv| - 1;
    assert lv == lv[..n] + [lv[n]] && lv[..n] == lv[..n - 1] + [lv[n - 1]];
    hide OpenCount;
    CountOneMore(lv[..n], lv[n]);
    CountOneMore(lv[..n - 1], lv[n - 1]);
    CountOneMore(lv[..n - 1], Opened(lv[n - 1]));
  }

  class Stack {
    var lv: seq<Level>
    var nopen: int
    const max: nat

    ghost predicate Valid(up: Dir -> Dir)
      reads this
    {
      Sound(lv, up) && nopen == OpenCount(lv) && Few(lv, max)
    }

    constructor (max: nat)
      ensures lv == [] && this.max == max && forall up :: Valid(up)
    {
      lv, nopen, this.max := [], 0, max;
    }

    /** Before a directory is entered by a link: ".." of it is elsewhere. */
    method Pin(ghost up: Dir -> Dir)
      requires Valid(up) && lv != []
      modifies this
      ensures Valid(up) && lv == old(lv[|lv| - 1 := lv[|lv| - 1].(pinned := true)]) && Dirs(lv) == old(Dirs(lv))
    {
      CountChanged(lv, |lv| - 1, lv[|lv| - 1].(pinned := true));
      lv := lv[|lv| - 1 := lv[|lv| - 1].(pinned := true)];
    }

    /** ds_push: if that makes one too many, the lowest that may be is closed. */
    method Push(dir: Dir, ghost up: Dir -> Dir)
      requires Valid(up) && (lv == [] || lv[|lv| - 1].pinned || up(dir) == lv[|lv| - 1].dir)
      modifies this
      ensures Valid(up) && |lv| == old(|lv|) + 1 && lv[|lv| - 1] == Level(Some(dir), dir, false)
      ensures Dirs(lv) == old(Dirs(lv)) + [dir]
      ensures
        if old(nopen) < max || (forall j :: 0 <= j < old(|lv|) ==> !Closable(old(lv)[j])) then lv[..|lv| - 1] == old(lv)
        else exists i ::
          && 0 <= i < old(|lv|) && Closable(old(lv)[i]) && (forall j :: 0 <= j < i ==> !Closable(old(lv)[j]))
          && lv[..|lv| - 1] == old(lv)[i := Shut(old(lv)[i])]
    {
      ghost var was := lv;
      hide Sound, OpenCount;
      PushKeeps(lv, up, dir);
      lv := lv + [Level(Some(dir), dir, false)];
      nopen := nopen + 1;
      if nopen > max {
        var i := 0;
        while i + 1 < |lv| && !Closable(lv[i])
          invariant 0 <= i < |lv|
          invariant forall j :: 0 <= j < i ==> !Closable(lv[j])
        {
          i := i + 1;
        }
        if i + 1 < |lv| {
          assert forall j :: 0 <= j < i ==> was[j] == lv[j];
          ShutEnough(was, Level(Some(dir), dir, false), max, i);
          ShutKeeps(lv, up, i);
          lv := lv[i := Shut(lv[i])];
          nopen := nopen - 1;
          assert lv[..|lv| - 1] == was[i := Shut(was[i])];
        }
      }
    }

    /** ds_pop: the level below is opened again as ".." of the top, if need be. */
    method Pop(up: Dir -> Dir) returns (ok: bool)
      requires Valid(up) && lv != []
      modifies this
      ensures Valid(up) && ok && |lv| == old(|lv|) - 1 && Dirs(lv) == old(Dirs(lv))[..|lv|]
      ensures lv == [] || lv == old(lv)[..|lv| - 1] + [Opened(old(lv)[|lv| - 1])]
    {
      ghost var was := lv;
      if |lv| >= 2 {
        PopKeeps(lv, up, max);
      }
      hide Few, OpenCount;
      var top := |lv| - 1;
      ok := true;
      if top >= 1 && lv[top - 1].fd.None? {
        var fd := up(lv[top].fd.value);
        if fd == lv[top - 1].dir {
          lv := lv[top - 1 := lv[top - 1].(fd := Some(fd))];
          nopen := nopen + 1;
        } else {
          ok := false;
        }
      }
      lv := lv[..top];
      nopen := nopen - 1;
      EmptyStack(up, max);
      CountOneMore([], was[0]);
      assert top >= 1 ==> lv == was[..top - 1] + [Opened(was[top - 1])];
      assert top == 0 ==> was == [] + [was[0]] && lv == [];
    }
  }

  lemma {:induction false} EmptyStack(up: Dir -> Dir, max: nat)
    ensures Sound([], up) && Few([], max) && OpenCount([]) == 0
  {
  }
}
