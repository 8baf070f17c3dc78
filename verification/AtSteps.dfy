/** Every step keeps the spool safe. */
module AtSteps {
  import opened Options
  import opened AtSpool
  import opened AtSafety

  lemma {:induction false} Issued(s: State, n: nat)
    requires Numbers(s.issued, s.counter) && n in s.issued
    ensures n <= s.counter
  {
  }

  // ---- submitting ----

  lemma {:induction false} LockStep(s: State, p: nat, w: Proc)
    requires Inv(s) && p in s.procs && s.procs[p] == w && w.Submitter? && w.stage == New && s.lock == None
    ensures Inv(With(s, p, w.(stage := Locked)).(lock := Some(p)))
  {
    hide Shared;
    var x := w.(stage := Locked);
    var s' := With(s, p, x).(lock := Some(p));
    assert ProcOk(s, p, w);
    SharedAgain(s, s');
    forall q | q in s.procs && q != p
      ensures Spares(s, s', s.procs[q]) && Apart(x, s.procs[q])
    {
      assert ProcOk(s, q, s.procs[q]);
      SparedHold(s, s', q, s.procs[q]);
    }
    Safe(s, s', p, x);
  }

  lemma {:induction false} SharedAgain(s: State, s': State)
    requires Shared(s) && s'.issued == s.issued && s'.counter == s.counter && s'.spool == s.spool
    requires s'.published == s.published && s'.started == s.started && s'.removed == s.removed
    ensures Shared(s')
  {
  }

  /** What a daemon has renamed is there, and not started. */
  lemma {:induction false} SparedHold(s: State, s': State, q: nat, v: Proc)
    requires ProcOk(s, q, v) && s'.spool == s.spool && s'.started == s.started
    ensures Holds(v) ==> Active(v.phase.job.id) in s'.spool && !HasStarted(s'.started, v.phase.job.id)
  {
  }

  lemma {:induction false} WriteStep(s: State, p: nat, w: Proc)
    requires Inv(s) && p in s.procs && s.procs[p] == w && w.Submitter? && w.stage == HasRead
    ensures Inv(With(s, p, w.(stage := HasWritten)).(counter := w.num, issued := s.issued + [w.num]))
  {
    hide Shared;
    var x := w.(stage := HasWritten);
    var s' := With(s, p, x).(counter := w.num, issued := s.issued + [w.num]);
    assert ProcOk(s, p, w);
    NewNumber(s, s', w);
    forall q | q in s.procs && q != p
      ensures Spares(s, s', s.procs[q]) && Apart(x, s.procs[q])
    {
      assert ProcOk(s, q, s.procs[q]);
      SparedHold(s, s', q, s.procs[q]);
      if Numbering(s.procs[q]) {
        SharedNumbers(s);
        Issued(s, s.procs[q].num);
      }
    }
    Safe(s, s', p, x);
  }

  lemma {:induction false} SharedNumbers(s: State)
    requires Shared(s)
    ensures Numbers(s.issued, s.counter)
  {
  }

  lemma {:induction false} NewNumber(s: State, s': State, w: Proc)
    requires Shared(s) && w.Submitter? && w.num == s.counter + 1
    requires s' == s.(counter := w.num, issued := s.issued + [w.num], procs := s'.procs)
    ensures Shared(s') && w.num in s'.issued && w.num !in s.published && OwnName(s.spool, w)
  {
    hide HasStarted, Due, Is;
    if w.num in s.issued {
      Issued(s, w.num);
    }
    assert forall n :: n in s.issued ==> n in s'.issued;
  }

  lemma {:induction false} UnlockStep(s: State, p: nat, w: Proc)
    requires Inv(s) && p in s.procs && s.procs[p] == w && w.Submitter? && w.stage == HasWritten
    ensures Inv(With(s, p, w.(stage := Numbered)).(lock := None))
  {
    hide Shared;
    var x := w.(stage := Numbered);
    var s' := With(s, p, x).(lock := None);
    assert ProcOk(s, p, w);
    SharedAgain(s, s');
    forall q | q in s.procs && q != p
      ensures Spares(s, s', s.procs[q]) && Apart(x, s.procs[q])
    {
      assert ProcOk(s, q, s.procs[q]);
      assert Apart(s.procs[p], s.procs[q]);
      SparedHold(s, s', q, s.procs[q]);
    }
    Safe(s, s', p, x);
  }

  /** A file under construction. */
  lemma {:induction false} WritingStep(s: State, p: nat, w: Proc, x: Proc, f: File)
    requires Inv(s) && p in s.procs && s.procs[p] == w && w.Submitter? && w.stage in {Numbered, Writing}
    requires x.Submitter? && x == w.(stage := x.stage) && x.stage in {Writing, Whole}
    ensures Inv(With(s, p, x).(spool := s.spool[Fresh(Id(w.num, w.queue)) := f]))
  {
    hide Shared;
    var id := Id(w.num, w.queue);
    var s' := With(s, p, x).(spool := s.spool[Fresh(id) := f]);
    assert ProcOk(s, p, w);
    FreshAdded(s, s', id, f);
    forall q | q in s.procs && q != p
      ensures Spares(s, s', s.procs[q]) && Apart(x, s.procs[q])
    {
      assert ProcOk(s, q, s.procs[q]);
      assert Apart(s.procs[p], s.procs[q]);
    }
    Safe(s, s', p, x);
  }

  lemma {:induction false} FreshAdded(s: State, s': State, id: Id, f: File)
    requires Shared(s) && id.num in s.issued && id.num !in s.published
    requires s' == s.(spool := s.spool[Fresh(id) := f], procs := s'.procs)
    ensures Shared(s')
  {
    hide HasStarted, Due, Is, StartsOk, RemovalsOk, Numbers;
  }

  lemma {:induction false} PublishStep(s: State, p: nat, w: Proc)
    requires Inv(s) && p in s.procs && s.procs[p] == w && w.Submitter? && w.stage == Whole
    ensures Inv(With(s, p, Ended).(spool := Without(s.spool, Fresh(Id(w.num, w.queue)))[Visible(Id(w.num, w.queue)) := w.file],
      published := s.published[w.num := (Id(w.num, w.queue), w.file)]))
  {
    hide Shared;
    var id := Id(w.num, w.queue);
    var s' := With(s, p, Ended).(spool := Without(s.spool, Fresh(id))[Visible(id) := w.file], published := s.published[w.num := (id, w.file)]);
    assert ProcOk(s, p, w);
    NowVisible(s, s', w, id);
    forall q | q in s.procs && q != p
      ensures Spares(s, s', s.procs[q]) && Apart(Ended, s.procs[q])
    {
      assert ProcOk(s, q, s.procs[q]);
      assert Apart(s.procs[p], s.procs[q]);
    }
    Safe(s, s', p, Ended);
  }

  lemma {:induction false} NowVisible(s: State, s': State, w: Proc, id: Id)
    requires Shared(s) && w.Submitter? && w.file.whole && id == Id(w.num, w.queue) && w.num in s.issued && w.num !in s.published && OwnName(s.spool, w)
    requires s' == s.(spool := Without(s.spool, Fresh(id))[Visible(id) := w.file], published := s.published[w.num := (id, w.file)], procs := s'.procs)
    ensures Shared(s')
  {
    hide Numbers, Names, StartsOk, RemovalsOk, Exclusive;
    NewIsUntouched(s, id);
    NamesVisible(s.spool, s.published, s.issued, id, w.file);
    MorePublished(s.published, s.started, s.removed, id, w.file);
    ExclusiveVisible(s.spool, s.started, s.removed, id, w.file);
  }

  /** A job that was never published was neither run nor removed. */
  lemma {:induction false} NewIsUntouched(s: State, id: Id)
    requires Shared(s) && id.num !in s.published
    ensures Active(id) !in s.spool && !HasStarted(s.started, id) && id !in s.removed
  {
  }

  lemma {:induction false} NamesVisible(spool: map<Name, File>, published: map<nat, (Id, File)>, issued: seq<nat>, id: Id, f: File)
    requires Names(spool, published, issued) && id.num in issued && id.num !in published && f.whole && Active(id) !in spool
    requires forall j :: Fresh(j) in spool && j.num == id.num ==> j.queue == id.queue
    ensures Names(Without(spool, Fresh(id))[Visible(id) := f], published[id.num := (id, f)], issued)
  {
  }

  lemma {:induction false} MorePublished(published: map<nat, (Id, File)>, started: seq<Start>, removed: seq<Id>, id: Id, f: File)
    requires StartsOk(published, started) && RemovalsOk(published, removed) && id.num !in published
    ensures StartsOk(published[id.num := (id, f)], started) && RemovalsOk(published[id.num := (id, f)], removed)
  {
  }

  lemma {:induction false} ExclusiveVisible(spool: map<Name, File>, started: seq<Start>, removed: seq<Id>, id: Id, f: File)
    requires Exclusive(spool, started, removed) && !HasStarted(started, id) && id !in removed
    ensures Exclusive(Without(spool, Fresh(id))[Visible(id) := f], started, removed)
  {
  }

  lemma {:induction false} DieStep(s: State, p: nat, w: Proc, cleans: bool)
    requires Inv(s) && p in s.procs && s.procs[p] == w && w.Submitter?
    ensures Inv(SubmitStep(s, Die(p, cleans), p, w).value)
  {
    hide Shared;
    var s' := SubmitStep(s, Die(p, cleans), p, w).value;
    assert ProcOk(s, p, w);
    FreshGone(s, s', Id(w.num, w.queue));
    forall q | q in s.procs && q != p
      ensures Spares(s, s', s.procs[q]) && Apart(Ended, s.procs[q])
    {
      assert ProcOk(s, q, s.procs[q]);
      assert Apart(s.procs[p], s.procs[q]);
    }
    Safe(s, s', p, Ended);
  }

  lemma {:induction false} FreshGone(s: State, s': State, id: Id)
    requires Shared(s) && (s'.spool == s.spool || s'.spool == Without(s.spool, Fresh(id)))
    requires s' == s.(spool := s'.spool, lock := s'.lock, procs := s'.procs)
    ensures Shared(s')
  {
    hide HasStarted, Due, Is, StartsOk, RemovalsOk, Numbers;
  }

  // ---- removing ----

  lemma {:induction false} UnlinkStep(s: State, p: nat, w: Proc)
    requires Inv(s) && p in s.procs && s.procs[p] == w && w.Remover? && Visible(w.target) in s.spool
    ensures Inv(With(s, p, Ended).(spool := Without(s.spool, Visible(w.target)), removed := s.removed + [w.target]))
  {
    hide Shared;
    var s' := With(s, p, Ended).(spool := Without(s.spool, Visible(w.target)), removed := s.removed + [w.target]);
    NowRemoved(s, s', w.target);
    forall q | q in s.procs && q != p
      ensures Spares(s, s', s.procs[q]) && Apart(Ended, s.procs[q])
    {
      assert ProcOk(s, q, s.procs[q]);
    }
    Safe(s, s', p, Ended);
  }

  lemma {:induction false} NowRemoved(s: State, s': State, id: Id)
    requires Shared(s) && Visible(id) in s.spool
    requires s' == s.(spool := Without(s.spool, Visible(id)), removed := s.removed + [id], procs := s'.procs)
    ensures Shared(s')
  {
    hide Numbers, StartsOk;
    assert !HasStarted(s.started, id) && id !in s.removed;
    assert Is(s.published, id, s.spool[Visible(id)]);
  }

  // ---- serving ----

  lemma {:induction false} ReapStep(s: State, p: nat, w: Proc, i: nat)
    requires Inv(s) && p in s.procs && s.procs[p] == w && w.Daemon? && w.phase == Asleep && i < |w.runs|
    ensures Inv(DaemonStep(s, Reap(p, i), p, w).value)
  {
    hide Shared;
    var last := |w.runs| - 1;
    var runs := w.runs[i := w.runs[last]][..last];
    var x := w.(runs := runs);
    var s' := With(s, p, x).(spool := Without(s.spool, Active(w.runs[i])));
    assert ProcOk(s, p, w);
    FewerRuns(s.started, w.runs, i);
    ActiveGone(s, s', w.runs[i]);
    forall q | q in s.procs && q != p
      ensures Spares(s, s', s.procs[q]) && Apart(x, s.procs[q])
    {
      assert ProcOk(s, q, s.procs[q]);
    }
    Safe(s, s', p, x);
  }

  lemma {:induction false} FewerRuns(started: seq<Start>, runs: seq<Id>, i: nat)
    requires RunsOk(started, runs) && i < |runs|
    ensures RunsOk(started, runs[i := runs[|runs| - 1]][..|runs| - 1])
  {
    hide HasStarted;
  }

  lemma {:induction false} ActiveGone(s: State, s': State, id: Id)
    requires Shared(s) && s' == s.(spool := Without(s.spool, Active(id)), procs := s'.procs)
    ensures Shared(s')
  {
    hide HasStarted, Due, Is, StartsOk, RemovalsOk, Numbers;
  }

  lemma {:induction false} SeeStep(s: State, p: nat, w: Proc, id: Id)
    requires Inv(s) && p in s.procs && s.procs[p] == w && w.Daemon? && w.phase.Looking? && Visible(id) in s.spool
    ensures Inv(With(s, p, w.(phase := Looking(w.phase.found + [Found(id, s.spool[Visible(id)].when)]))))
  {
    var x := w.(phase := Looking(w.phase.found + [Found(id, s.spool[Visible(id)].when)]));
    assert ProcOk(s, p, w);
    SeenIsKnown(s, id);
    hide Shared, Known, Apart;
    OnlyItself(s, p, x);
  }

  lemma {:induction false} SeenIsKnown(s: State, id: Id)
    requires Shared(s) && Visible(id) in s.spool
    ensures Known(s.published, Found(id, s.spool[Visible(id)].when)) && Active(id) !in s.spool && !HasStarted(s.started, id) && id !in s.removed
  {
  }

  lemma {:induction false} SortStep(s: State, p: nat, w: Proc, order: seq<Found>)
    requires Inv(s) && p in s.procs && s.procs[p] == w && w.Daemon? && w.phase.Looking? && multiset(order) == multiset(w.phase.found) && Sorted(order)
    ensures Inv(With(s, p, w.(phase := Walking(order, s.clock))))
  {
    assert ProcOk(s, p, w);
    forall i | 0 <= i < |order|
      ensures Known(s.published, order[i])
    {
      assert order[i] in multiset(w.phase.found);
    }
    hide Shared, Known, Apart;
    OnlyItself(s, p, w.(phase := Walking(order, s.clock)));
  }

  /** A job that is due is renamed. */
  lemma {:induction false} TakeStep(s: State, p: nat, w: Proc, j: Found, todo: seq<Found>, now: int)
    requires Inv(s) && p in s.procs && s.procs[p] == w && w.Daemon? && w.phase == Walking([j] + todo, now)
    requires j.when <= now && !(j.id.queue == 'b' && BatchRunning(w.runs)) && Visible(j.id) in s.spool
    ensures Inv(With(s, p, w.(phase := Holding(j, todo, now))).(spool := Without(s.spool, Visible(j.id))[Active(j.id) := s.spool[Visible(j.id)]]))
  {
    hide Shared;
    var x := w.(phase := Holding(j, todo, now));
    var s' := With(s, p, x).(spool := Without(s.spool, Visible(j.id))[Active(j.id) := s.spool[Visible(j.id)]]);
    assert ProcOk(s, p, w);
    SeenIsKnown(s, j.id);
    assert AllKnown(s.published, todo) && Known(s.published, j) by {
      AllButFirst(s.published, j, todo);
    }
    NowActive(s, s', j.id);
    forall q | q in s.procs && q != p
      ensures Spares(s, s', s.procs[q]) && Apart(x, s.procs[q])
    {
      assert ProcOk(s, q, s.procs[q]);
    }
    Safe(s, s', p, x);
  }

  lemma {:induction false} AllButFirst(published: map<nat, (Id, File)>, j: Found, todo: seq<Found>)
    requires AllKnown(published, [j] + todo)
    ensures Known(published, j) && AllKnown(published, todo)
  {
    var all := [j] + todo;
    assert all[0] == j;
    forall i | 0 <= i < |todo|
      ensures Known(published, todo[i])
    {
      assert all[i + 1] == todo[i];
    }
  }

  lemma {:induction false} NowActive(s: State, s': State, id: Id)
    requires Shared(s) && Visible(id) in s.spool
    requires s' == s.(spool := Without(s.spool, Visible(id))[Active(id) := s.spool[Visible(id)]], procs := s'.procs)
    ensures Shared(s')
  {
    hide HasStarted, Due, StartsOk, RemovalsOk, Numbers;
  }

  /** A renamed job that cannot be run is gone. */
  lemma {:induction false} DropStep(s: State, p: nat, w: Proc)
    requires Inv(s) && p in s.procs && s.procs[p] == w && w.Daemon? && w.phase.Holding?
    ensures Inv(With(s, p, w.(phase := Walking(w.phase.todo, w.phase.now))).(spool := Without(s.spool, Active(w.phase.job.id))))
  {
    hide Shared;
    var x := w.(phase := Walking(w.phase.todo, w.phase.now));
    var s' := With(s, p, x).(spool := Without(s.spool, Active(w.phase.job.id)));
    assert ProcOk(s, p, w);
    SortedRest(w.phase.job, w.phase.todo);
    ActiveGone(s, s', w.phase.job.id);
    forall q | q in s.procs && q != p
      ensures Spares(s, s', s.procs[q]) && Apart(x, s.procs[q])
    {
      assert ProcOk(s, q, s.procs[q]);
      assert Apart(s.procs[p], s.procs[q]);
    }
    Safe(s, s', p, x);
  }

  /** A renamed job for which there is no process gets its name back. */
  lemma {:induction false} BackStep(s: State, p: nat, w: Proc)
    requires Inv(s) && p in s.procs && s.procs[p] == w && w.Daemon? && w.phase.Holding? && Active(w.phase.job.id) in s.spool
    ensures Inv(With(s, p, w.(phase := Walking(w.phase.todo, w.phase.now))).(
      spool := Without(s.spool, Active(w.phase.job.id))[Visible(w.phase.job.id) := s.spool[Active(w.phase.job.id)]]))
  {
    hide Shared;
    var id := w.phase.job.id;
    var x := w.(phase := Walking(w.phase.todo, w.phase.now));
    var s' := With(s, p, x).(spool := Without(s.spool, Active(id))[Visible(id) := s.spool[Active(id)]]);
    assert ProcOk(s, p, w);
    SortedRest(w.phase.job, w.phase.todo);
    VisibleAgain(s, s', id);
    forall q | q in s.procs && q != p
      ensures Spares(s, s', s.procs[q]) && Apart(x, s.procs[q])
    {
      assert ProcOk(s, q, s.procs[q]);
      assert Apart(s.procs[p], s.procs[q]);
    }
    Safe(s, s', p, x);
  }

  lemma {:induction false} VisibleAgain(s: State, s': State, id: Id)
    requires Shared(s) && Active(id) in s.spool && !HasStarted(s.started, id)
    requires s' == s.(spool := Without(s.spool, Active(id))[Visible(id) := s.spool[Active(id)]], procs := s'.procs)
    ensures Shared(s')
  {
    hide HasStarted, Due, StartsOk, RemovalsOk, Numbers;
  }

  /** A renamed job is started. */
  lemma {:induction false} ForkStep(s: State, p: nat, w: Proc)
    requires Inv(s) && p in s.procs && s.procs[p] == w && w.Daemon? && w.phase.Holding?
    ensures Inv(With(s, p, w.(phase := Walking(w.phase.todo, w.phase.now), runs := w.runs + [w.phase.job.id])).(
      started := s.started + [Start(w.phase.job.id, s.clock)]))
  {
    hide Shared;
    var job := w.phase.job;
    var x := w.(phase := Walking(w.phase.todo, w.phase.now), runs := w.runs + [job.id]);
    var s' := With(s, p, x).(started := s.started + [Start(job.id, s.clock)]);
    assert ProcOk(s, p, w);
    SortedRest(w.phase.job, w.phase.todo);
    NowStarted(s, s', job);
    MoreRuns(s.started, s'.started, w.runs, job.id, s.clock);
    forall q | q in s.procs && q != p
      ensures Spares(s, s', s.procs[q]) && Apart(x, s.procs[q])
    {
      assert ProcOk(s, q, s.procs[q]);
      assert Apart(s.procs[p], s.procs[q]);
      StartedOne(s.started, job.id, s.clock);
    }
    Safe(s, s', p, x);
  }

  lemma {:induction false} StartedOne(started: seq<Start>, id: Id, at: int)
    ensures forall x :: HasStarted(started + [Start(id, at)], x) <==> HasStarted(started, x) || x == id
  {
    forall x
      ensures HasStarted(started + [Start(id, at)], x) <==> HasStarted(started, x) || x == id
    {
      var more := started + [Start(id, at)];
      assert more[|started|].id == id;
      if HasStarted(started, x) {
        var i :| 0 <= i < |started| && started[i].id == x;
        assert more[i].id == x;
      }
    }
  }

  lemma {:induction false} MoreRuns(started: seq<Start>, more: seq<Start>, runs: seq<Id>, id: Id, at: int)
    requires RunsOk(started, runs) && more == started + [Start(id, at)] && !(id.queue == 'b' && BatchRunning(runs))
    ensures RunsOk(more, runs + [id])
  {
    StartedOne(started, id, at);
    hide HasStarted;
  }

  lemma {:induction false} NowStarted(s: State, s': State, job: Found)
    requires Shared(s) && Active(job.id) in s.spool && !HasStarted(s.started, job.id) && Known(s.published, job) && job.when <= s.clock
    requires s' == s.(started := s.started + [Start(job.id, s.clock)], procs := s'.procs)
    ensures Shared(s')
  {
    StartedOne(s.started, job.id, s.clock);
    assert forall i :: 0 <= i < |s.started| ==> s.started[i].id != job.id;
    hide HasStarted, Numbers, RemovalsOk, Is;
  }
}
