/** What holds of the spool in every order in which submitters, removers and daemons can take their
    steps. */
module AtSafety {
  import opened Options
  import opened AtSpool

  // ---- the shared state ----

  /** Numbers are issued one after the other. */
  ghost predicate Numbers(issued: seq<nat>, counter: nat)
  {
    counter == |issued| && forall i :: 0 <= i < |issued| ==> issued[i] == i + 1
  }

  /** The job was published so. */
  ghost predicate Is(published: map<nat, (Id, File)>, id: Id, f: File)
  {
    id.num in published && published[id.num] == (id, f)
  }

  /** Only whole jobs are visible or run, each as it was published; a job has one name. */
  ghost predicate Names(spool: map<Name, File>, published: map<nat, (Id, File)>, issued: seq<nat>)
  {
    && (forall n :: n in published ==> n in issued && published[n].0.num == n && published[n].1.whole)
    && (forall id :: Fresh(id) in spool ==> id.num in issued && id.num !in published)
    && (forall id :: Visible(id) in spool ==> Is(published, id, spool[Visible(id)]) && Active(id) !in spool)
    && (forall id :: Active(id) in spool ==> Is(published, id, spool[Active(id)]))
  }

  ghost predicate HasStarted(started: seq<Start>, id: Id)
  {
    exists i :: 0 <= i < |started| && started[i].id == id
  }

  ghost predicate Due(published: map<nat, (Id, File)>, x: Start)
  {
    x.id.num in published && published[x.id.num].0 == x.id && published[x.id.num].1.when <= x.at
  }

  ghost predicate StartsOk(published: map<nat, (Id, File)>, started: seq<Start>)
  {
    && (forall i, j :: 0 <= i < j < |started| ==> started[i].id != started[j].id)
    && (forall i :: 0 <= i < |started| ==> Due(published, started[i]))
  }

  ghost predicate RemovalsOk(published: map<nat, (Id, File)>, removed: seq<Id>)
  {
    && (forall i, j :: 0 <= i < j < |removed| ==> removed[i] != removed[j])
    && (forall i :: 0 <= i < |removed| ==> removed[i].num in published && published[removed[i].num].0 == removed[i])
  }

  /** What was removed was not started, and neither can be seen any more. */
  ghost predicate Exclusive(spool: map<Name, File>, started: seq<Start>, removed: seq<Id>)
  {
    && (forall i :: 0 <= i < |started| ==> started[i].id !in removed)
    && (forall id :: Visible(id) in spool ==> !HasStarted(started, id) && id !in removed)
    && (forall id :: Active(id) in spool ==> id !in removed)
  }

  ghost predicate Shared(s: State)
  {
    && Numbers(s.issued, s.counter) && Names(s.spool, s.published, s.issued)
    && StartsOk(s.published, s.started) && RemovalsOk(s.published, s.removed) && Exclusive(s.spool, s.started, s.removed)
  }

  // ---- each process ----

  predicate Counting(w: Proc)
  {
    w.Submitter? && w.stage in {Locked, HasRead, HasWritten}
  }

  predicate Numbering(w: Proc)
  {
    w.Submitter? && w.stage in {HasWritten, Numbered, Writing, Whole}
  }

  /** A new file of this number is the submitter's. */
  ghost predicate OwnName(spool: map<Name, File>, w: Proc)
    requires w.Submitter?
  {
    forall id :: Fresh(id) in spool && id.num == w.num ==> id.queue == w.queue
  }

  /** A submitter holds the lock while it counts; its number is new until it publishes the job. */
  ghost predicate SubmitterOk(s: State, p: nat, w: Proc)
    requires w.Submitter?
  {
    && w.file.whole && (Counting(w) ==> s.lock == Some(p)) && (w.stage == HasRead ==> w.num == s.counter + 1)
    && (Numbering(w) ==> w.num in s.issued && w.num !in s.published && OwnName(s.spool, w))
    && (w.stage == Whole ==> Fresh(Id(w.num, w.queue)) in s.spool)
  }

  /** A job that was published to run at when. */
  ghost predicate Known(published: map<nat, (Id, File)>, f: Found)
  {
    f.id.num in published && published[f.id.num].0 == f.id && published[f.id.num].1.when == f.when
  }

  ghost predicate AllKnown(published: map<nat, (Id, File)>, f: seq<Found>)
  {
    forall i :: 0 <= i < |f| ==> Known(published, f[i])
  }

  /** At most one of the jobs is a batch job. */
  ghost predicate OneBatch(runs: seq<Id>)
  {
    forall i, j :: 0 <= i < j < |runs| ==> !(runs[i].queue == 'b' && runs[j].queue == 'b')
  }

  ghost predicate RunsOk(started: seq<Start>, runs: seq<Id>)
  {
    (forall i :: 0 <= i < |runs| ==> HasStarted(started, runs[i])) && OneBatch(runs)
  }

  lemma {:induction false} SortedRest(j: Found, todo: seq<Found>)
    requires Sorted([j] + todo)
    ensures Sorted(todo)
  {
    var all := [j] + todo;
    forall i, k | 0 <= i < k < |todo|
      ensures todo[i].when < todo[k].when || (todo[i].when == todo[k].when && todo[i].id.num <= todo[k].id.num)
    {
      assert todo[i] == all[i + 1] && todo[k] == all[k + 1];
    }
  }

  /** What a daemon has found, renamed and started. */
  ghost predicate PhaseOk(s: State, phase: Phase, runs: seq<Id>)
  {
    match phase
    case Asleep => true
    case Looking(found) => AllKnown(s.published, found)
    case Walking(todo, now) => AllKnown(s.published, todo) && Sorted(todo) && now <= s.clock
    case Holding(job, todo, now) =>
      && AllKnown(s.published, todo) && Sorted([job] + todo) && Known(s.published, job) && job.when <= now <= s.clock
      && Active(job.id) in s.spool && !HasStarted(s.started, job.id) && !(job.id.queue == 'b' && BatchRunning(runs))
  }

  ghost predicate ProcOk(s: State, p: nat, w: Proc)
  {
    match w
    case Submitter(_, _, _, _) => SubmitterOk(s, p, w)
    case Daemon(_, phase, runs) => RunsOk(s.started, runs) && PhaseOk(s, phase, runs)
    case _ => true
  }

  predicate Holds(w: Proc)
  {
    w.Daemon? && w.phase.Holding?
  }

  /** Two processes have neither a number nor a renamed job in common. */
  ghost predicate Apart(w: Proc, v: Proc)
  {
    (Numbering(w) && Numbering(v) ==> w.num != v.num) && (Holds(w) && Holds(v) ==> w.phase.job.id != v.phase.job.id)
  }

  ghost predicate Inv(s: State)
  {
    && Shared(s)
    && (forall p :: p in s.procs ==> ProcOk(s, p, s.procs[p]))
    && (forall p, q :: p in s.procs && q in s.procs && p != q ==> Apart(s.procs[p], s.procs[q]))
  }

  lemma {:induction false} ApartSymmetric(w: Proc, v: Proc)
    requires Apart(w, v)
    ensures Apart(v, w)
  {
  }

  lemma {:induction false} BeginIsSafe(clock: int)
    ensures Inv(Begin(clock))
  {
  }

  /** The other processes do not mind. */
  ghost predicate Unharmed(s: State, s': State, p: nat, x: Proc)
  {
    forall q :: q in s.procs && q != p ==> ProcOk(s', q, s.procs[q]) && Apart(x, s.procs[q])
  }

  /** One process and the shared state have changed. */
  lemma {:induction false} Changed(s: State, s': State, p: nat, x: Proc)
    requires Inv(s) && s'.procs == s.procs[p := x] && Shared(s') && ProcOk(s', p, x) && Unharmed(s, s', p, x)
    ensures Inv(s')
  {
    hide ProcOk, Apart, Shared;
    forall q, r | q in s'.procs && r in s'.procs && q != r
      ensures Apart(s'.procs[q], s'.procs[r])
    {
      if r == p {
        ApartSymmetric(x, s.procs[q]);
      }
    }
  }

  /** Nothing has changed but what the process itself knows. */
  lemma {:induction false} OnlyItself(s: State, p: nat, x: Proc)
    requires Inv(s) && ProcOk(s, p, x) && (p in s.procs ==> Numbering(x) ==> Numbering(s.procs[p]) && x.num == s.procs[p].num)
    requires p !in s.procs ==> !Numbering(x)
    requires !Holds(x)
    ensures Inv(With(s, p, x))
  {
    hide Shared;
    var s' := With(s, p, x);
    forall q | q in s.procs && q != p
      ensures ProcOk(s', q, s.procs[q]) && Apart(x, s.procs[q])
    {
      SameOk(s, s', q, s.procs[q]);
      if p in s.procs {
        assert Apart(s.procs[p], s.procs[q]);
      }
    }
    SameShared(s, s');
    SameOk(s, s', p, x);
    Changed(s, s', p, x);
  }

  lemma {:induction false} SameShared(s: State, s': State)
    requires Shared(s) && s' == s.(procs := s'.procs)
    ensures Shared(s')
  {
  }

  lemma {:induction false} SameOk(s: State, s': State, q: nat, v: Proc)
    requires ProcOk(s, q, v) && s' == s.(procs := s'.procs)
    ensures ProcOk(s', q, v)
  {
  }

  /** Time goes on. */
  lemma {:induction false} Later(s: State)
    requires Inv(s)
    ensures Inv(s.(clock := s.clock + 1))
  {
    hide Shared, Apart;
    var s' := s.(clock := s.clock + 1);
    LaterShared(s);
    forall p | p in s.procs
      ensures ProcOk(s', p, s.procs[p])
    {
      LaterOk(s, p, s.procs[p]);
    }
  }

  lemma {:induction false} LaterShared(s: State)
    requires Shared(s)
    ensures Shared(s.(clock := s.clock + 1))
  {
  }

  lemma {:induction false} LaterOk(s: State, p: nat, w: Proc)
    requires ProcOk(s, p, w)
    ensures ProcOk(s.(clock := s.clock + 1), p, w)
  {
  }

  // ---- what one step means to the other processes ----

  /** What has happened stays. */
  ghost predicate Grown(s: State, s': State)
  {
    && s.issued <= s'.issued && s.started <= s'.started && s.clock <= s'.clock
    && forall n :: n in s.published ==> n in s'.published && s'.published[n] == s.published[n]
  }

  /** A step does not touch what a process relies on. */
  ghost predicate Spares(s: State, s': State, v: Proc)
  {
    && (Counting(v) ==> s'.lock == s.lock && s'.counter == s.counter)
    && (Numbering(v) ==> v.num !in s'.published && forall id :: Fresh(id) in s'.spool && id.num == v.num ==> Fresh(id) in s.spool)
    && (v.Submitter? && v.stage == Whole ==> Fresh(Id(v.num, v.queue)) in s'.spool)
    && (Holds(v) ==> Active(v.phase.job.id) in s'.spool && !HasStarted(s'.started, v.phase.job.id))
  }

  lemma {:induction false} Spared(s: State, s': State, q: nat, v: Proc)
    requires ProcOk(s, q, v) && Grown(s, s') && Spares(s, s', v)
    ensures ProcOk(s', q, v)
  {
    hide Known;
    if v.Submitter? {
      hide HasStarted;
      assert ProcOk(s', q, v);
    } else if v.Daemon? {
      RunsStay(s.started, s'.started, v.runs);
      PhaseStays(s, s', v.phase, v.runs);
    }
  }

  lemma {:induction false} RunsStay(a: seq<Start>, b: seq<Start>, runs: seq<Id>)
    requires a <= b && RunsOk(a, runs)
    ensures RunsOk(b, runs)
  {
    forall i | 0 <= i < |runs|
      ensures HasStarted(b, runs[i])
    {
      var k :| 0 <= k < |a| && a[k].id == runs[i];
      assert b[k].id == runs[i];
    }
  }

  lemma {:induction false} PhaseStays(s: State, s': State, phase: Phase, runs: seq<Id>)
    requires Grown(s, s') && PhaseOk(s, phase, runs)
    requires phase.Holding? ==> Active(phase.job.id) in s'.spool && !HasStarted(s'.started, phase.job.id)
    ensures PhaseOk(s', phase, runs)
  {
    match phase
    case Asleep =>
    case Looking(found) => KnownStay(s, s', found);
    case Walking(todo, _) => KnownStay(s, s', todo);
    case Holding(job, todo, _) =>
      KnownStay(s, s', todo);
  }

  lemma {:induction false} KnownStay(s: State, s': State, f: seq<Found>)
    requires Grown(s, s') && AllKnown(s.published, f)
    ensures AllKnown(s'.published, f)
  {
  }

  /** A step of one process is safe if it spares all others. */
  lemma {:induction false} Safe(s: State, s': State, p: nat, x: Proc)
    requires Inv(s) && s'.procs == s.procs[p := x] && Shared(s') && ProcOk(s', p, x) && Grown(s, s')
    requires forall q :: q in s.procs && q != p ==> Spares(s, s', s.procs[q]) && Apart(x, s.procs[q])
    ensures Inv(s')
  {
    hide ProcOk, Apart, Shared, Grown, Spares;
    forall q | q in s.procs && q != p
      ensures ProcOk(s', q, s.procs[q]) && Apart(x, s.procs[q])
    {
      Spared(s, s', q, s.procs[q]);
    }
    Changed(s, s', p, x);
  }
}
