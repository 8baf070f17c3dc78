/** The spool over whole runs. */
module AtRuns {
  import opened Options
  import opened AtSpool
  import opened AtSafety
  import opened AtSteps

  /** Wherever the counter file is lost, between its truncation and its writing, no number was issued. */
  ghost predicate Keeps(s: State, acts: seq<Action>)
    decreases |acts|
  {
    acts != [] && Step(s, acts[0]).Some? ==>
      (acts[0].LoseCounter? ==> s.issued == []) && Keeps(Step(s, acts[0]).value, acts[1..])
  }

  lemma {:induction false} SubmitterKeeps(s: State, a: Action, p: nat, w: Proc)
    requires Inv(s) && p in s.procs && s.procs[p] == w && w.Submitter? && SubmitStep(s, a, p, w).Some? && !a.LoseCounter?
    requires a.Tick? || a.p == p
    ensures Inv(SubmitStep(s, a, p, w).value)
  {
    assert ProcOk(s, p, w);
    hide Inv, Shared;
    if a.Create? {
      if Fresh(Id(w.num, w.queue)) in s.spool {
        Ends(s, p);
      } else {
        WritingStep(s, p, w, w.(stage := Writing), w.file.(whole := false));
      }
    } else if a.Finish? {
      WritingStep(s, p, w, w.(stage := Whole), w.file);
    } else if a.Publish? {
      PublishStep(s, p, w);
    } else if a.Die? {
      DieStep(s, p, w, a.cleans);
    } else {
      CountingKeeps(s, a, p, w);
    }
  }

  lemma {:induction false} CountingKeeps(s: State, a: Action, p: nat, w: Proc)
    requires Inv(s) && p in s.procs && s.procs[p] == w && w.Submitter? && SubmitStep(s, a, p, w).Some?
    requires a.Lock? || a.ReadCounter? || a.WriteCounter? || a.Unlock?
    ensures Inv(SubmitStep(s, a, p, w).value)
  {
    hide Inv, Shared;
    if a.Lock? {
      LockStep(s, p, w);
    } else if a.ReadCounter? {
      ItselfReads(s, p, w);
    } else if a.WriteCounter? {
      WriteStep(s, p, w);
    } else {
      UnlockStep(s, p, w);
    }
  }

  lemma {:induction false} ItselfReads(s: State, p: nat, w: Proc)
    requires Inv(s) && p in s.procs && s.procs[p] == w && w.Submitter? && w.stage == Locked
    ensures Inv(With(s, p, w.(stage := HasRead, num := s.counter + 1)))
  {
    assert ProcOk(s, p, w);
    hide Shared, Apart;
    OnlyItself(s, p, w.(stage := HasRead, num := s.counter + 1));
  }

  lemma {:induction false} Ends(s: State, p: nat)
    requires Inv(s) && p in s.procs
    ensures Inv(With(s, p, Ended))
  {
    hide Shared, Apart;
    OnlyItself(s, p, Ended);
  }

  lemma {:induction false} RemoverKeeps(s: State, a: Action, p: nat, w: Proc)
    requires Inv(s) && p in s.procs && s.procs[p] == w && w.Remover? && RemoveStep(s, a, p, w).Some?
    ensures Inv(RemoveStep(s, a, p, w).value)
  {
    if a.Unlink? && Visible(w.target) in s.spool {
      UnlinkStep(s, p, w);
    } else {
      Checked(s, p, w);
      Ends(s, p);
    }
  }

  lemma {:induction false} Checked(s: State, p: nat, w: Proc)
    requires Inv(s) && p in s.procs && s.procs[p] == w && w.Remover?
    ensures Inv(With(s, p, w.(checked := true)))
  {
    hide Shared, Apart;
    OnlyItself(s, p, w.(checked := true));
  }

  /** A daemon goes on to a phase that is all right. */
  lemma {:induction false} GoesOn(s: State, p: nat, w: Proc, phase: Phase)
    requires Inv(s) && p in s.procs && s.procs[p] == w && w.Daemon? && PhaseOk(s, phase, w.runs) && !phase.Holding?
    ensures Inv(With(s, p, w.(phase := phase)))
  {
    assert ProcOk(s, p, w);
    hide Shared, Apart;
    OnlyItself(s, p, w.(phase := phase));
  }

  lemma {:induction false} DaemonKeeps(s: State, a: Action, p: nat, w: Proc)
    requires Inv(s) && p in s.procs && s.procs[p] == w && w.Daemon? && DaemonStep(s, a, p, w).Some?
    requires a.Tick? || a.p == p
    ensures Inv(DaemonStep(s, a, p, w).value)
  {
    assert ProcOk(s, p, w);
    match w.phase
    case Asleep =>
      if a.Look? {
        GoesOn(s, p, w, Looking([]));
      } else {
        ReapStep(s, p, w, a.i);
      }
    case Looking(found) =>
      if a.See? {
        SeeStep(s, p, w, a.id);
      } else {
        SortStep(s, p, w, a.order);
      }
    case Walking(todo, now) =>
      if a.Rest? {
        GoesOn(s, p, w, Asleep);
      } else {
        var j := todo[0];
        assert todo == [j] + todo[1..];
        AllButFirst(s.published, j, todo[1..]);
        SortedRest(j, todo[1..]);
        if j.when > now || (j.id.queue == 'b' && BatchRunning(w.runs)) || Visible(j.id) !in s.spool {
          GoesOn(s, p, w, Walking(todo[1..], now));
        } else {
          TakeStep(s, p, w, j, todo[1..], now);
        }
      }
    case Holding(job, todo, now) =>
      if a.outcome == CannotRun {
        DropStep(s, p, w);
      } else if a.outcome == CannotFork {
        BackStep(s, p, w);
      } else {
        ForkStep(s, p, w);
      }
  }

  lemma {:induction false} StepKeeps(s: State, a: Action)
    requires Inv(s) && Step(s, a).Some? && (a.LoseCounter? ==> s.issued == [])
    ensures Inv(Step(s, a).value)
  {
    hide Inv, SubmitStep, RemoveStep, DaemonStep;
    if a.LoseCounter? {
      LostAtFirst(s, a.p);
    } else if a.Tick? {
      Later(s);
    } else if a.Submit? {
      Arrives(s, a.p, Submitter(New, 0, a.queue, File(a.owner, a.when, true)));
    } else if a.Remove? {
      Arrives(s, a.p, Remover(a.id, a.user, false));
    } else if a.Serve? {
      Arrives(s, a.p, Daemon(a.user, Asleep, []));
    } else {
      ProcessKeeps(s, a, a.p, s.procs[a.p]);
    }
  }

  lemma {:induction false} ProcessKeeps(s: State, a: Action, p: nat, w: Proc)
    requires Inv(s) && !a.Tick? && a.p == p && p in s.procs && s.procs[p] == w && !a.LoseCounter?
    ensures w.Submitter? && SubmitStep(s, a, p, w).Some? ==> Inv(SubmitStep(s, a, p, w).value)
    ensures w.Remover? && RemoveStep(s, a, p, w).Some? ==> Inv(RemoveStep(s, a, p, w).value)
    ensures w.Daemon? && DaemonStep(s, a, p, w).Some? ==> Inv(DaemonStep(s, a, p, w).value)
  {
    hide Inv, SubmitStep, RemoveStep, DaemonStep;
    if w.Submitter? {
      if SubmitStep(s, a, p, w).Some? {
        SubmitterKeeps(s, a, p, w);
      }
    } else if w.Remover? {
      if RemoveStep(s, a, p, w).Some? {
        RemoverKeeps(s, a, p, w);
      }
    } else if w.Daemon? {
      if DaemonStep(s, a, p, w).Some? {
        DaemonKeeps(s, a, p, w);
      }
    }
  }

  lemma {:induction false} Arrives(s: State, p: nat, w: Proc)
    requires Inv(s) && p !in s.procs
    requires (w.Submitter? && w.stage == New && w.file.whole) || w.Remover? || (w.Daemon? && w.phase == Asleep && w.runs == [])
    ensures Inv(With(s, p, w))
  {
    hide Shared, Apart;
    OnlyItself(s, p, w);
  }

  lemma {:induction false} RunKeeps(s: State, acts: seq<Action>, s': State)
    requires Inv(s) && Keeps(s, acts) && Leads(s, acts, s')
    ensures Inv(s')
    decreases |acts|
  {
    hide Inv, Step;
    if acts != [] {
      StepKeeps(s, acts[0]);
      RunKeeps(Step(s, acts[0]).value, acts[1..], s');
    }
  }

  // ---- what is promised ----

  /** Numbers are distinct. */
  ghost predicate DistinctNumbers(s: State)
  {
    forall i, j :: 0 <= i < j < |s.issued| ==> s.issued[i] != s.issued[j]
  }

  /** What can be seen is whole. */
  ghost predicate OnlyWhole(s: State)
  {
    forall id :: Visible(id) in s.spool ==> s.spool[Visible(id)].whole
  }

  /** A job is started at most once, at its time or later, and never if a removal of it succeeded. */
  ghost predicate StartedRight(s: State)
  {
    && (forall i, j :: 0 <= i < j < |s.started| ==> s.started[i].id != s.started[j].id)
    && (forall i :: 0 <= i < |s.started| ==> Due(s.published, s.started[i]))
    && (forall i, j :: 0 <= i < |s.started| && 0 <= j < |s.removed| ==> s.started[i].id != s.removed[j])
  }

  /** No daemon runs two batch jobs. */
  ghost predicate OneBatchEach(s: State)
  {
    forall p :: p in s.procs && s.procs[p].Daemon? ==> OneBatch(s.procs[p].runs)
  }

  /** A daemon goes through what a scan found by time, then by number. */
  ghost predicate InOrder(s: State)
  {
    forall p :: p in s.procs && s.procs[p].Daemon? ==> PhaseInOrder(s.procs[p].phase)
  }

  ghost predicate PhaseInOrder(phase: Phase)
  {
    match phase
    case Walking(todo, _) => Sorted(todo)
    case Holding(job, todo, _) => Sorted([job] + todo)
    case _ => true
  }

  /** Over any interleaving of any number of submitters, removers and daemons. */
  lemma {:induction false} SpoolIsSafe(clock: int, acts: seq<Action>, s: State)
    requires Keeps(Begin(clock), acts) && Leads(Begin(clock), acts, s)
    ensures DistinctNumbers(s) && OnlyWhole(s) && StartedRight(s) && OneBatchEach(s) && InOrder(s)
  {
    BeginIsSafe(clock);
    RunKeeps(Begin(clock), acts, s);
    InvMeans(s);
  }

  lemma {:induction false} InvMeans(s: State)
    requires Inv(s)
    ensures DistinctNumbers(s) && OnlyWhole(s) && StartedRight(s) && OneBatchEach(s) && InOrder(s)
  {
    assert forall id :: Visible(id) in s.spool ==> Is(s.published, id, s.spool[Visible(id)]);
    forall p | p in s.procs && s.procs[p].Daemon?
      ensures OneBatch(s.procs[p].runs) && PhaseInOrder(s.procs[p].phase)
    {
      assert ProcOk(s, p, s.procs[p]);
    }
  }

  // ---- a counter that is lost ----

  /** Losing the counter file does no harm if no number was ever issued. */
  lemma {:induction false} LostAtFirst(s: State, p: nat)
    requires Inv(s) && Step(s, LoseCounter(p)).Some? && s.issued == []
    ensures Inv(Step(s, LoseCounter(p)).value)
  {
    var w := s.procs[p];
    LostState(s, p);
    var s' := Step(s, LoseCounter(p)).value;
    hide Shared, Step;
    assert ProcOk(s, p, w);
    LostShared(s, s');
    forall q | q in s.procs && q != p
      ensures Spares(s, s', s.procs[q]) && Apart(Ended, s.procs[q])
    {
      assert ProcOk(s, q, s.procs[q]);
      SparedHold(s, s', q, s.procs[q]);
    }
    Safe(s, s', p, Ended);
  }

  lemma {:induction false} LostState(s: State, p: nat)
    requires Step(s, LoseCounter(p)).Some?
    ensures p in s.procs && s.procs[p].Submitter? && s.procs[p].stage == HasRead
    ensures Step(s, LoseCounter(p)).value == With(s, p, Ended).(counter := 0, lock := None)
  {
  }

  lemma {:induction false} LostShared(s: State, s': State)
    requires Shared(s) && s.issued == [] && s' == s.(counter := 0, lock := s'.lock, procs := s'.procs)
    ensures Shared(s')
  {
  }

  /** Otherwise the next submitter is given the number 1, which was issued before. */
  lemma {:induction false} LostLater(s: State, p: nat, q: nat) returns (acts: seq<Action>, s': State)
    requires Inv(s) && Step(s, LoseCounter(p)).Some? && s.issued != [] && q !in s.procs
    ensures Leads(Step(s, LoseCounter(p)).value, acts, s')
    ensures |s'.issued| == |s.issued| + 1 && s'.issued[0] == 1 == s'.issued[|s.issued|]
  {
    acts := [Submit(q, 'a', 0, 0), Lock(q), ReadCounter(q), WriteCounter(q)];
    var s0 := Step(s, LoseCounter(p)).value;
    LostCounter(s, p, s0);
    var w := Submitter(New, 0, 'a', File(0, 0, true));
    var s1 := With(s0, q, w);
    var s2 := With(s1, q, w.(stage := Locked)).(lock := Some(q));
    var s3 := With(s2, q, w.(stage := HasRead, num := 1));
    s' := With(s3, q, w.(stage := HasWritten, num := 1)).(counter := 1, issued := s3.issued + [1]);
    CountsAgain(s0, q, w, s1, s2, s3, s');
    LeadsFour(s0, s1, s2, s3, s', acts);
  }

  lemma {:induction false} LostCounter(s: State, p: nat, s0: State)
    requires Inv(s) && Step(s, LoseCounter(p)) == Some(s0)
    ensures s0.lock == None && s0.counter == 0 && s0.issued == s.issued && s0.procs == s.procs[p := Ended] && p in s.procs
    ensures s.issued != [] ==> s.issued[0] == 1
  {
  }

  lemma {:induction false} CountsAgain(s0: State, q: nat, w: Proc, s1: State, s2: State, s3: State, s4: State)
    requires s0.lock == None && s0.counter == 0 && q !in s0.procs && w == Submitter(New, 0, 'a', File(0, 0, true))
    requires s1 == With(s0, q, w) && s2 == With(s1, q, w.(stage := Locked)).(lock := Some(q))
    requires s3 == With(s2, q, w.(stage := HasRead, num := 1))
    requires s4 == With(s3, q, w.(stage := HasWritten, num := 1)).(counter := 1, issued := s3.issued + [1])
    ensures Step(s0, Submit(q, 'a', 0, 0)) == Some(s1) && Step(s1, Lock(q)) == Some(s2)
    ensures Step(s2, ReadCounter(q)) == Some(s3) && Step(s3, WriteCounter(q)) == Some(s4)
  {
  }

  lemma {:induction false} LeadsFour(s0: State, s1: State, s2: State, s3: State, s4: State, acts: seq<Action>)
    requires |acts| == 4 && Step(s0, acts[0]) == Some(s1) && Step(s1, acts[1]) == Some(s2)
    requires Step(s2, acts[2]) == Some(s3) && Step(s3, acts[3]) == Some(s4)
    ensures Leads(s0, acts, s4)
  {
    hide Step;
    assert acts[1..][1..] == acts[2..] && acts[2..][1..] == acts[3..] && acts[3..][1..] == [];
    assert Leads(s4, [], s4);
    assert Leads(s3, acts[3..], s4);
    assert Leads(s2, acts[2..], s4);
    assert Leads(s1, acts[1..], s4);
  }
}
