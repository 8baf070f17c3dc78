/** What gets done: from every state in which the spool can be, a submission that is not hindered makes
    its job visible, a removal takes it, and a scan starts just the jobs that it should. */
module AtProgress {
  import opened Options
  import opened AtSpool
  import opened AtSafety
  import opened AtSteps
  import opened AtRuns

  // ---- runs ----

  lemma {:induction false} LeadsNone(s: State)
    ensures Leads(s, [], s)
  {
  }

  lemma {:induction false} LeadsFirst(s: State, a: Action, t: State, acts: seq<Action>, u: State)
    requires Step(s, a) == Some(t) && Leads(t, acts, u)
    ensures Leads(s, [a] + acts, u)
  {
    assert ([a] + acts)[1..] == acts;
  }

  lemma {:induction false} LeadsOne(s: State, a: Action, t: State)
    requires Step(s, a) == Some(t)
    ensures Leads(s, [a], t)
  {
    hide Step;
    assert [a][1..] == [];
    LeadsNone(t);
  }

  lemma {:induction false} LeadsLater(s: State, acts: seq<Action>, t: State, more: seq<Action>, u: State)
    requires Leads(s, acts, t) && Leads(t, more, u)
    ensures Leads(s, acts + more, u)
    decreases |acts|
  {
    if acts == [] {
      assert acts + more == more;
    } else {
      var v := Step(s, acts[0]).value;
      LeadsLater(v, acts[1..], t, more, u);
      assert acts + more == [acts[0]] + (acts[1..] + more);
      LeadsFirst(s, acts[0], v, acts[1..] + more, u);
    }
  }

  // ---- a scan ----

  /** Job k of those that a scan found is to be started: it is due, and if it is a batch job, none is
      running and none that is due comes before it. */
  ghost predicate ToStart(order: seq<Found>, k: nat, now: int, running: bool)
    requires k < |order|
  {
    && order[k].when <= now
    && (order[k].id.queue == 'b' ==> !running && forall i :: 0 <= i < k ==> !(order[i].when <= now && order[i].id.queue == 'b'))
  }

  ghost predicate Different(order: seq<Found>)
  {
    forall i, j :: 0 <= i < j < |order| ==> order[i].id != order[j].id
  }

  /** All are there to be started. */
  ghost predicate Waiting(s: State, order: seq<Found>)
  {
    forall i :: 0 <= i < |order| ==> Visible(order[i].id) in s.spool && !HasStarted(s.started, order[i].id)
  }

  ghost predicate Among(id: Id, order: seq<Found>)
  {
    exists i :: 0 <= i < |order| && order[i].id == id
  }

  /** Each job has been started, or is visible as before. */
  ghost predicate Scanned(s: State, t: State, order: seq<Found>, now: int, running: bool)
  {
    && (forall k :: 0 <= k < |order| ==>
      if ToStart(order, k, now, running) then HasStarted(t.started, order[k].id) && Visible(order[k].id) !in t.spool
      else Visible(order[k].id) in t.spool && !HasStarted(t.started, order[k].id))
    && SameElsewhere(s, t, order)
  }

  ghost predicate SameElsewhere(s: State, t: State, order: seq<Found>)
  {
    forall id :: !Among(id, order) ==>
      (Visible(id) in t.spool <==> Visible(id) in s.spool) && (HasStarted(t.started, id) <==> HasStarted(s.started, id))
  }

  /** One job is passed over. */
  lemma {:induction false} PassStep(s: State, p: nat, w: Proc, j: Found, rest: seq<Found>, now: int)
    requires p in s.procs && s.procs[p] == w && w.Daemon? && w.phase == Walking([j] + rest, now)
    requires j.when > now || (j.id.queue == 'b' && BatchRunning(w.runs))
    ensures Step(s, Take(p)) == Some(With(s, p, w.(phase := Walking(rest, now))))
  {
    assert ([j] + rest)[0] == j && ([j] + rest)[1..] == rest;
  }

  /** One job is renamed, and its process is started. */
  lemma {:induction false} StartSteps(s: State, p: nat, w: Proc, j: Found, rest: seq<Found>, now: int) returns (t: State)
    requires p in s.procs && s.procs[p] == w && w.Daemon? && w.phase == Walking([j] + rest, now)
    requires j.when <= now && !(j.id.queue == 'b' && BatchRunning(w.runs)) && Visible(j.id) in s.spool
    ensures Leads(s, [Take(p), Settle(p, Forked)], t)
    ensures t == With(s, p, w.(phase := Walking(rest, now), runs := w.runs + [j.id])).(
      spool := Without(s.spool, Visible(j.id))[Active(j.id) := s.spool[Visible(j.id)]], started := s.started + [Start(j.id, s.clock)])
  {
    assert ([j] + rest)[0] == j && ([j] + rest)[1..] == rest;
    var u := Step(s, Take(p)).value;
    t := Step(u, Settle(p, Forked)).value;
    assert t.procs == s.procs[p := w.(phase := Walking(rest, now), runs := w.runs + [j.id])];
    hide Step, Leads;
    LeadsOne(u, Settle(p, Forked), t);
    LeadsOne(s, Take(p), u);
    LeadsLater(s, [Take(p)], u, [Settle(p, Forked)], t);
    assert [Take(p)] + [Settle(p, Forked)] == [Take(p), Settle(p, Forked)];
  }

  // ---- one job after the other ----

  lemma {:induction false} BatchMore(runs: seq<Id>, id: Id)
    ensures BatchRunning(runs + [id]) <==> BatchRunning(runs) || id.queue == 'b'
  {
    var more := runs + [id];
    if BatchRunning(runs) {
      var i :| 0 <= i < |runs| && runs[i].queue == 'b';
      assert more[i].queue == 'b';
    } else if id.queue == 'b' {
      assert more[|runs|].queue == 'b';
    }
  }

  /** Whether a later job is to be started does not depend on one that is passed over. */
  lemma {:induction false} LaterAfter(j: Found, rest: seq<Found>, k: nat, now: int, running: bool, after: bool)
    requires k < |rest|
    requires if ToStart([j] + rest, 0, now, running) then after == (running || j.id.queue == 'b') else after == running
    ensures ToStart([j] + rest, k + 1, now, running) <==> ToStart(rest, k, now, after)
  {
    var all := [j] + rest;
    assert all[0] == j && forall i :: 0 <= i < |rest| ==> all[i + 1] == rest[i];
    if ToStart(rest, k, now, after) && rest[k].id.queue == 'b' {
      forall i | 0 <= i < k + 1
        ensures !(all[i].when <= now && all[i].id.queue == 'b')
      {
        if i > 0 {
          assert all[i] == rest[i - 1];
        }
      }
    }
  }

  lemma {:induction false} StartedMore(started: seq<Start>, x: Start, id: Id)
    ensures HasStarted(started + [x], id) <==> HasStarted(started, id) || id == x.id
  {
    var more := started + [x];
    if HasStarted(started, id) {
      var i :| 0 <= i < |started| && started[i].id == id;
      assert more[i].id == id;
    } else if id == x.id {
      assert more[|started|].id == id;
    }
  }

  /** What one job becomes, and nothing else does. */
  ghost predicate OneDone(s: State, u: State, id: Id, start: bool)
  {
    && (if start then HasStarted(u.started, id) && Visible(id) !in u.spool else Visible(id) in u.spool && !HasStarted(u.started, id))
    && forall x :: x != id ==> (Visible(x) in u.spool <==> Visible(x) in s.spool) && (HasStarted(u.started, x) <==> HasStarted(s.started, x))
  }

  lemma {:induction false} AmongMore(id: Id, j: Found, rest: seq<Found>)
    requires id == j.id || Among(id, rest)
    ensures Among(id, [j] + rest)
  {
    var all := [j] + rest;
    if id == j.id {
      assert all[0].id == id;
    } else {
      var i :| 0 <= i < |rest| && rest[i].id == id;
      assert all[i + 1] == rest[i];
    }
  }

  lemma {:induction false} DifferentRest(j: Found, rest: seq<Found>)
    requires Different([j] + rest)
    ensures Different(rest) && !Among(j.id, rest)
  {
    var all := [j] + rest;
    assert forall i :: 0 <= i < |rest| ==> all[i + 1] == rest[i] && all[0].id != all[i + 1].id;
  }

  lemma {:induction false} WaitingRest(s: State, u: State, j: Found, rest: seq<Found>, start: bool)
    requires Waiting(s, [j] + rest) && Different([j] + rest) && OneDone(s, u, j.id, start)
    ensures Waiting(u, rest)
  {
    DifferentRest(j, rest);
    forall i | 0 <= i < |rest|
      ensures Visible(rest[i].id) in u.spool && !HasStarted(u.started, rest[i].id)
    {
      assert ([j] + rest)[i + 1] == rest[i];
    }
  }

  /** The first job, then the rest. */
  lemma {:induction false} ScannedMore(s: State, u: State, t: State, j: Found, rest: seq<Found>, now: int, running: bool, after: bool)
    requires Different([j] + rest) && OneDone(s, u, j.id, ToStart([j] + rest, 0, now, running))
    requires after == if ToStart([j] + rest, 0, now, running) then running || j.id.queue == 'b' else running
    requires Scanned(u, t, rest, now, after)
    ensures Scanned(s, t, [j] + rest, now, running)
  {
    hide HasStarted, ToStart, Among;
    var all := [j] + rest;
    DifferentRest(j, rest);
    forall k | 0 <= k < |all|
      ensures if ToStart(all, k, now, running) then HasStarted(t.started, all[k].id) && Visible(all[k].id) !in t.spool
        else Visible(all[k].id) in t.spool && !HasStarted(t.started, all[k].id)
    {
      if k > 0 {
        LaterAfter(j, rest, k - 1, now, running, after);
        assert all[k] == rest[k - 1];
      }
    }
    forall id | !Among(id, all)
      ensures (Visible(id) in t.spool <==> Visible(id) in s.spool) && (HasStarted(t.started, id) <==> HasStarted(s.started, id))
    {
      if id == j.id || Among(id, rest) {
        AmongMore(id, j, rest);
      }
    }
  }

  ghost predicate Own(acts: seq<Action>, p: nat)
  {
    forall i :: 0 <= i < |acts| ==> (acts[i].Look? || acts[i].See? || acts[i].Sort? || acts[i].Take? || acts[i].Rest? || acts[i] == Settle(p, Forked)) && acts[i].p == p
  }

  /** From the jobs that a scan found, in their order, just those are started that are to be. */
  lemma {:induction false} Walks(s: State, p: nat, w: Proc, todo: seq<Found>, now: int) returns (acts: seq<Action>, t: State)
    requires p in s.procs && s.procs[p] == w && w.Daemon? && w.phase == Walking(todo, now)
    requires Different(todo) && Waiting(s, todo)
    ensures Leads(s, acts, t) && Own(acts, p) && p in t.procs && t.procs[p].Daemon? && t.procs[p].phase == Asleep
    ensures Scanned(s, t, todo, now, BatchRunning(w.runs))
    decreases |todo|
  {
    hide Step, Leads, HasStarted, BatchRunning;
    if todo == [] {
      acts := [Rest(p)];
      t := RestStep(s, p, w, now, BatchRunning(w.runs));
    } else {
      var j, rest := todo[0], todo[1..];
      assert todo == [j] + rest;
      var first, u, x := Decides(s, p, w, j, rest, now);
      WaitingRest(s, u, j, rest, ToStart(todo, 0, now, BatchRunning(w.runs)));
      DifferentRest(j, rest);
      var more;
      more, t := Walks(u, p, x, rest, now);
      acts := first + more;
      LeadsLater(s, first, u, more, t);
      ScannedMore(s, u, t, j, rest, now, BatchRunning(w.runs), BatchRunning(x.runs));
    }
  }

  lemma {:induction false} RestIs(s: State, p: nat, w: Proc, now: int)
    requires p in s.procs && s.procs[p] == w && w.Daemon? && w.phase == Walking([], now)
    ensures Step(s, Rest(p)) == Some(With(s, p, w.(phase := Asleep)))
  {
  }

  lemma {:induction false} RestStep(s: State, p: nat, w: Proc, now: int, running: bool) returns (t: State)
    requires p in s.procs && s.procs[p] == w && w.Daemon? && w.phase == Walking([], now)
    ensures Leads(s, [Rest(p)], t) && p in t.procs && t.procs[p] == w.(phase := Asleep)
    ensures Scanned(s, t, [], now, running)
  {
    t := With(s, p, w.(phase := Asleep));
    RestIs(s, p, w, now);
    hide Step, Leads;
    LeadsOne(s, Rest(p), t);
  }

  /** What is done with the next job. */
  lemma {:induction false} Decides(s: State, p: nat, w: Proc, j: Found, rest: seq<Found>, now: int) returns (acts: seq<Action>, u: State, x: Proc)
    requires p in s.procs && s.procs[p] == w && w.Daemon? && w.phase == Walking([j] + rest, now)
    requires Visible(j.id) in s.spool && !HasStarted(s.started, j.id)
    ensures Leads(s, acts, u) && Own(acts, p)
    ensures p in u.procs && u.procs[p] == x && x.Daemon? && x.phase == Walking(rest, now)
    ensures var start := ToStart([j] + rest, 0, now, BatchRunning(w.runs));
      && OneDone(s, u, j.id, start)
      && BatchRunning(x.runs) == if start then BatchRunning(w.runs) || j.id.queue == 'b' else BatchRunning(w.runs)
  {
    hide Step, Leads, HasStarted, BatchRunning;
    if ToStart([j] + rest, 0, now, BatchRunning(w.runs)) {
      acts := [Take(p), Settle(p, Forked)];
      u := StartSteps(s, p, w, j, rest, now);
      x := w.(phase := Walking(rest, now), runs := w.runs + [j.id]);
      BatchMore(w.runs, j.id);
      forall id
        ensures HasStarted(u.started, id) <==> HasStarted(s.started, id) || id == j.id
      {
        StartedMore(s.started, Start(j.id, s.clock), id);
      }
    } else {
      acts := [Take(p)];
      PassStep(s, p, w, j, rest, now);
      x := w.(phase := Walking(rest, now));
      u := With(s, p, x);
      LeadsOne(s, Take(p), u);
    }
  }

  // ---- the whole scan ----

  /** A job that a daemon of this user finds. */
  ghost predicate Finds(s: State, user: nat, f: Found)
  {
    && Visible(f.id) in s.spool && s.spool[Visible(f.id)].whole && s.spool[Visible(f.id)].when == f.when
    && (user == 0 || s.spool[Visible(f.id)].owner == user)
  }

  lemma {:induction false} SeeIs(s: State, p: nat, w: Proc, found: seq<Found>, f: Found)
    requires p in s.procs && s.procs[p] == w && w.Daemon? && w.phase == Looking(found) && Finds(s, w.user, f)
    ensures Step(s, See(p, f.id)) == Some(With(s, p, w.(phase := Looking(found + [f]))))
  {
    assert f == Found(f.id, f.when);
  }

  lemma {:induction false} Sees(s: State, p: nat, w: Proc, order: seq<Found>, n: nat) returns (acts: seq<Action>, t: State)
    requires p in s.procs && s.procs[p] == w && w.Daemon? && w.phase == Looking([]) && n <= |order|
    requires forall i :: 0 <= i < |order| ==> Finds(s, w.user, order[i])
    ensures Leads(s, acts, t) && Own(acts, p) && t == With(s, p, w.(phase := Looking(order[..n])))
  {
    hide Step, Leads, Finds;
    if n == 0 {
      acts, t := [], s;
      LeadsNone(s);
      assert s.procs[p := w] == s.procs;
    } else {
      var u;
      acts, u := Sees(s, p, w, order, n - 1);
      var f, x := order[n - 1], w.(phase := Looking(order[..n - 1]));
      StillFinds(s, p, x, w.user, f);
      SeeIs(u, p, x, order[..n - 1], f);
      assert order[..n - 1] + [f] == order[..n];
      t := With(u, p, x.(phase := Looking(order[..n])));
      LeadsOne(u, See(p, f.id), t);
      LeadsLater(s, acts, u, [See(p, f.id)], t);
      acts := acts + [See(p, f.id)];
    }
  }

  lemma {:induction false} StillFinds(s: State, p: nat, x: Proc, user: nat, f: Found)
    requires Finds(s, user, f)
    ensures Finds(With(s, p, x), user, f)
  {
  }

  lemma {:induction false} LookIs(s: State, p: nat, w: Proc)
    requires p in s.procs && s.procs[p] == w && w.Daemon? && w.phase == Asleep
    ensures Step(s, Look(p)) == Some(With(s, p, w.(phase := Looking([]))))
  {
  }

  lemma {:induction false} SortIs(s: State, p: nat, w: Proc, order: seq<Found>)
    requires p in s.procs && s.procs[p] == w && w.Daemon? && w.phase == Looking(order) && Sorted(order)
    ensures Step(s, AtSpool.Sort(p, order)) == Some(With(s, p, w.(phase := Walking(order, s.clock))))
  {
  }

  /** From asleep to the jobs in their order. */
  lemma {:induction false} Scans(s: State, p: nat, w: Proc, order: seq<Found>) returns (acts: seq<Action>, t: State)
    requires p in s.procs && s.procs[p] == w && w.Daemon? && w.phase == Asleep && Sorted(order)
    requires forall i :: 0 <= i < |order| ==> Finds(s, w.user, order[i])
    ensures Leads(s, acts, t) && Own(acts, p) && t == With(s, p, w.(phase := Walking(order, s.clock)))
  {
    hide Step, Leads, Finds;
    LookIs(s, p, w);
    var x := w.(phase := Looking([]));
    var u := With(s, p, x);
    LeadsOne(s, Look(p), u);
    forall i | 0 <= i < |order|
      ensures Finds(u, w.user, order[i])
    {
      StillFinds(s, p, x, w.user, order[i]);
    }
    var sees, v := Sees(u, p, x, order, |order|);
    assert order[..|order|] == order;
    SortIs(v, p, w.(phase := Looking(order)), order);
    t := With(s, p, w.(phase := Walking(order, s.clock)));
    assert t.procs == With(v, p, w.(phase := Walking(order, s.clock))).procs;
    LeadsOne(v, AtSpool.Sort(p, order), t);
    LeadsLater(s, [Look(p)], u, sees, v);
    LeadsLater(s, [Look(p)] + sees, v, [AtSpool.Sort(p, order)], t);
    acts := [Look(p)] + sees + [AtSpool.Sort(p, order)];
  }

  lemma {:induction false} NotYet(s: State, user: nat, order: seq<Found>)
    requires Inv(s) && forall i :: 0 <= i < |order| ==> Finds(s, user, order[i])
    ensures Waiting(s, order)
  {
    hide HasStarted;
  }

  lemma {:induction false} SameScan(s: State, u: State, t: State, order: seq<Found>, now: int, running: bool)
    requires Scanned(u, t, order, now, running) && u == s.(procs := u.procs)
    ensures Scanned(s, t, order, now, running)
  {
    hide HasStarted, ToStart, Among;
  }

  /** Whatever jobs an idle daemon finds, it can go through them by itself, and then just those have been
      started that are due, of the batch jobs only the first, and none if one is running; the others are
      visible as before. */
  lemma {:induction false} ScanStarts(s: State, p: nat, order: seq<Found>) returns (acts: seq<Action>, t: State)
    requires Inv(s) && p in s.procs && s.procs[p].Daemon? && s.procs[p].phase == Asleep
    requires Sorted(order) && Different(order) && forall i :: 0 <= i < |order| ==> Finds(s, s.procs[p].user, order[i])
    ensures Leads(s, acts, t) && Own(acts, p) && p in t.procs && t.procs[p].Daemon? && t.procs[p].phase == Asleep
    ensures Scanned(s, t, order, s.clock, BatchRunning(s.procs[p].runs))
  {
    hide Step, Leads, Inv, Finds, Scanned, Waiting, Sorted, Different, BatchRunning;
    var w := s.procs[p];
    NotYet(s, w.user, order);
    var first, u := Scans(s, p, w, order);
    WaitingSame(s, u, order);
    var more;
    more, t := Walks(u, p, w.(phase := Walking(order, s.clock)), order, s.clock);
    SameScan(s, u, t, order, s.clock, BatchRunning(w.runs));
    LeadsLater(s, first, u, more, t);
    acts := first + more;
  }

  lemma {:induction false} WaitingSame(s: State, u: State, order: seq<Found>)
    requires Waiting(s, order) && u == s.(procs := u.procs)
    ensures Waiting(u, order)
  {
  }

  /** Every job that is visible and due is started by any idle daemon that may run it, unless it is a
      batch job and that daemon runs one. */
  lemma {:induction false} DueStarts(s: State, p: nat, id: Id) returns (acts: seq<Action>, t: State)
    requires Inv(s) && p in s.procs && s.procs[p].Daemon? && s.procs[p].phase == Asleep
    requires Visible(id) in s.spool && s.spool[Visible(id)].when <= s.clock
    requires s.procs[p].user == 0 || s.procs[p].user == s.spool[Visible(id)].owner
    requires id.queue == 'b' ==> forall i :: 0 <= i < |s.procs[p].runs| ==> s.procs[p].runs[i].queue != 'b'
    ensures Leads(s, acts, t) && Own(acts, p) && HasStarted(t.started, id)
  {
    hide Step, Leads, HasStarted;
    var f := Found(id, s.spool[Visible(id)].when);
    VisibleIsWhole(s, id);
    hide Inv;
    acts, t := ScanStarts(s, p, [f]);
    assert ToStart([f], 0, s.clock, BatchRunning(s.procs[p].runs));
    assert [f][0].id == id;
  }

  lemma {:induction false} VisibleIsWhole(s: State, id: Id)
    requires Inv(s) && Visible(id) in s.spool
    ensures s.spool[Visible(id)].whole
  {
    assert Is(s.published, id, s.spool[Visible(id)]);
  }

  // ---- a removal ----

  lemma {:induction false} LeadsTwo(s: State, a: Action, u: State, b: Action, t: State)
    requires Step(s, a) == Some(u) && Step(u, b) == Some(t)
    ensures Leads(s, [a, b], t)
  {
    hide Step, Leads;
    LeadsOne(s, a, u);
    LeadsOne(u, b, t);
    LeadsLater(s, [a], u, [b], t);
    assert [a] + [b] == [a, b];
  }

  lemma {:induction false} CheckIs(s: State, p: nat, w: Proc)
    requires p in s.procs && s.procs[p] == w && w.Remover? && !w.checked && Visible(w.target) in s.spool && s.spool[Visible(w.target)].whole
    ensures Step(s, Check(p)) == Some(With(s, p, if w.user == 0 || w.user == s.spool[Visible(w.target)].owner then w.(checked := true) else Ended))
  {
  }

  lemma {:induction false} UnlinkIs(s: State, p: nat, w: Proc)
    requires p in s.procs && s.procs[p] == w && w.Remover? && w.checked && Visible(w.target) in s.spool
    ensures Step(s, Unlink(p)) == Some(With(s, p, Ended).(spool := Without(s.spool, Visible(w.target)), removed := s.removed + [w.target]))
  {
  }

  /** A removal by the owner or by root takes a visible job; one by another user takes nothing. */
  lemma {:induction false} RemovalTakes(s: State, p: nat, id: Id, user: nat) returns (acts: seq<Action>, t: State)
    requires Inv(s) && p !in s.procs && Visible(id) in s.spool
    ensures Leads(s, acts, t) && t.procs == s.procs[p := Ended]
    ensures if user == 0 || user == s.spool[Visible(id)].owner
      then t.removed == s.removed + [id] && t.spool == Without(s.spool, Visible(id))
      else t.removed == s.removed && t.spool == s.spool
  {
    VisibleIsWhole(s, id);
    var w := Remover(id, user, false);
    var u := With(s, p, w);
    assert Step(s, Remove(p, id, user)) == Some(u);
    hide Inv, Leads, Step;
    CheckIs(u, p, w);
    acts := [Remove(p, id, user), Check(p)];
    if user == 0 || user == s.spool[Visible(id)].owner {
      var x := w.(checked := true);
      var v := With(u, p, x);
      LeadsTwo(s, Remove(p, id, user), u, Check(p), v);
      UnlinkIs(v, p, x);
      t := With(v, p, Ended).(spool := Without(s.spool, Visible(id)), removed := s.removed + [id]);
      LeadsOne(v, Unlink(p), t);
      LeadsLater(s, acts, v, [Unlink(p)], t);
      acts := acts + [Unlink(p)];
    } else {
      t := With(u, p, Ended);
      LeadsTwo(s, Remove(p, id, user), u, Check(p), t);
    }
  }

  // ---- a submission ----

  lemma {:induction false} CountIs(s: State, p: nat, w: Proc)
    requires p in s.procs && s.procs[p] == w && w.Submitter?
    ensures w.stage == New && s.lock == None ==> Step(s, Lock(p)) == Some(With(s, p, w.(stage := Locked)).(lock := Some(p)))
    ensures w.stage == Locked ==> Step(s, ReadCounter(p)) == Some(With(s, p, w.(stage := HasRead, num := s.counter + 1)))
    ensures w.stage == HasRead ==>
      Step(s, WriteCounter(p)) == Some(With(s, p, w.(stage := HasWritten)).(counter := w.num, issued := s.issued + [w.num]))
    ensures w.stage == HasWritten ==> Step(s, Unlock(p)) == Some(With(s, p, w.(stage := Numbered)).(lock := None))
  {
  }

  lemma {:induction false} FileIs(s: State, p: nat, w: Proc)
    requires p in s.procs && s.procs[p] == w && w.Submitter?
    ensures var id := Id(w.num, w.queue);
      && (w.stage == Numbered && Fresh(id) !in s.spool ==>
        Step(s, Create(p)) == Some(With(s, p, w.(stage := Writing)).(spool := s.spool[Fresh(id) := w.file.(whole := false)])))
      && (w.stage == Writing ==> Step(s, Finish(p)) == Some(With(s, p, w.(stage := Whole)).(spool := s.spool[Fresh(id) := w.file])))
      && (w.stage == Whole ==> Step(s, Publish(p)) == Some(With(s, p, Ended).(
        spool := Without(s.spool, Fresh(id))[Visible(id) := w.file], published := s.published[w.num := (id, w.file)])))
  {
  }

  /** The counter is read, written and released. */
  lemma {:induction false} Counts(s: State, p: nat, w: Proc) returns (t: State)
    requires p in s.procs && s.procs[p] == w && w.Submitter? && w.stage == New && s.lock == None
    ensures Leads(s, [Lock(p), ReadCounter(p), WriteCounter(p), Unlock(p)], t)
    ensures t == With(s, p, w.(stage := Numbered, num := s.counter + 1)).(counter := s.counter + 1, issued := s.issued + [s.counter + 1])
  {
    hide Leads, Step;
    var n := s.counter + 1;
    var x1, x2, x3 := w.(stage := Locked), w.(stage := HasRead, num := n), w.(stage := HasWritten, num := n);
    CountIs(s, p, w);
    var s1 := With(s, p, x1).(lock := Some(p));
    CountIs(s1, p, x1);
    var s2 := With(s1, p, x2);
    LeadsTwo(s, Lock(p), s1, ReadCounter(p), s2);
    CountIs(s2, p, x2);
    var s3 := With(s2, p, x3).(counter := n, issued := s.issued + [n]);
    CountIs(s3, p, x3);
    t := With(s3, p, x3.(stage := Numbered)).(lock := None);
    assert t.procs == s.procs[p := x3.(stage := Numbered)];
    LeadsTwo(s2, WriteCounter(p), s3, Unlock(p), t);
    LeadsLater(s, [Lock(p), ReadCounter(p)], s2, [WriteCounter(p), Unlock(p)], t);
    assert [Lock(p), ReadCounter(p)] + [WriteCounter(p), Unlock(p)] == [Lock(p), ReadCounter(p), WriteCounter(p), Unlock(p)];
  }

  /** The job is written and renamed. */
  lemma {:induction false} Files(s: State, p: nat, w: Proc, id: Id) returns (t: State)
    requires p in s.procs && s.procs[p] == w && w.Submitter? && w.stage == Numbered && id == Id(w.num, w.queue) && Fresh(id) !in s.spool
    ensures Leads(s, [Create(p), Finish(p), Publish(p)], t)
    ensures t == With(s, p, Ended).(spool := s.spool[Visible(id) := w.file], published := s.published[id.num := (id, w.file)])
  {
    hide Leads, Step;
    var x1, x2 := w.(stage := Writing), w.(stage := Whole);
    FileIs(s, p, w);
    var s1 := With(s, p, x1).(spool := s.spool[Fresh(id) := w.file.(whole := false)]);
    FileIs(s1, p, x1);
    var s2 := With(s1, p, x2).(spool := s1.spool[Fresh(id) := w.file]);
    LeadsTwo(s, Create(p), s1, Finish(p), s2);
    FileIs(s2, p, x2);
    t := With(s2, p, Ended).(spool := Without(s2.spool, Fresh(id))[Visible(id) := w.file], published := s.published[id.num := (id, w.file)]);
    assert t.procs == s.procs[p := Ended];
    assert t.spool == s.spool[Visible(id) := w.file];
    LeadsOne(s2, Publish(p), t);
    LeadsLater(s, [Create(p), Finish(p)], s2, [Publish(p)], t);
    assert [Create(p), Finish(p)] + [Publish(p)] == [Create(p), Finish(p), Publish(p)];
  }

  lemma {:induction false} NextIsFree(s: State, queue: char)
    requires Inv(s)
    ensures Fresh(Id(s.counter + 1, queue)) !in s.spool && Visible(Id(s.counter + 1, queue)) !in s.spool
  {
    if Fresh(Id(s.counter + 1, queue)) in s.spool {
      Issued(s, s.counter + 1);
    }
    if Visible(Id(s.counter + 1, queue)) in s.spool {
      assert Is(s.published, Id(s.counter + 1, queue), s.spool[Visible(Id(s.counter + 1, queue))]);
      Issued(s, s.counter + 1);
    }
  }

  /** A submission that nobody gets in the way of makes a new job visible, under the next number, and
      changes nothing else in the spool. */
  lemma {:induction false} SubmissionPublishes(s: State, p: nat, queue: char, when: int, owner: nat) returns (acts: seq<Action>, t: State)
    requires Inv(s) && p !in s.procs && s.lock == None
    ensures Leads(s, acts, t) && t.lock == None && t.counter == s.counter + 1
    ensures var id := Id(s.counter + 1, queue);
      Visible(id) !in s.spool && t.spool == s.spool[Visible(id) := File(owner, when, true)]
  {
    NextIsFree(s, queue);
    var id, f := Id(s.counter + 1, queue), File(owner, when, true);
    var w := Submitter(New, 0, queue, f);
    var u := With(s, p, w);
    assert Step(s, Submit(p, queue, when, owner)) == Some(u);
    hide Leads, Step, Inv;
    LeadsOne(s, Submit(p, queue, when, owner), u);
    var v := Counts(u, p, w);
    t := Files(v, p, w.(stage := Numbered, num := s.counter + 1), id);
    var a, b, c := [Submit(p, queue, when, owner)], [Lock(p), ReadCounter(p), WriteCounter(p), Unlock(p)], [Create(p), Finish(p), Publish(p)];
    LeadsLater(s, a, u, b, v);
    LeadsLater(s, a + b, v, c, t);
    acts := a + b + c;
  }

  // ---- a job that ends, or cannot run ----

  /** These without the one at i. */
  ghost predicate LessOne(less: seq<Id>, runs: seq<Id>, i: nat)
    requires i < |runs|
  {
    multiset(less) == multiset(runs) - multiset{runs[i]}
  }

  /** A job that has ended is no more among those that run, and its file is gone. */
  lemma {:induction false} EndedIsGone(s: State, p: nat, i: nat) returns (t: State)
    requires p in s.procs && s.procs[p].Daemon? && s.procs[p].phase == Asleep && i < |s.procs[p].runs|
    ensures Step(s, Reap(p, i)) == Some(t) && p in t.procs && t.procs[p].Daemon? && LessOne(t.procs[p].runs, s.procs[p].runs, i)
    ensures t == s.(procs := t.procs, spool := Without(s.spool, Active(s.procs[p].runs[i])))
  {
    hide LessOne;
    var runs := s.procs[p].runs;
    var n := |runs| - 1;
    var moved := runs[i := runs[n]];
    RemovedOne(runs, i, n, moved);
    t := Step(s, Reap(p, i)).value;
    assert t.procs[p].runs == moved[..n];
  }

  lemma {:induction false} RemovedOne(runs: seq<Id>, i: nat, n: nat, moved: seq<Id>)
    requires i < |runs| == n + 1 && moved == runs[i := runs[n]]
    ensures LessOne(moved[..n], runs, i)
  {
    hide LessOne;
    LastStays(runs, i, n, moved);
    Moved(runs, i, runs[n], moved);
    LastOff(moved, n);
    Exchange(multiset(moved[..n]), multiset(runs), multiset(moved), runs[i], runs[n]);
    LessOneIs(moved[..n], runs, i, runs[i]);
  }

  lemma {:induction false} LastStays(runs: seq<Id>, i: nat, n: nat, moved: seq<Id>)
    requires i < |runs| == n + 1 && moved == runs[i := runs[n]]
    ensures |moved| == n + 1 && moved[n] == runs[n]
  {
  }

  lemma {:induction false} LessOneIs(less: seq<Id>, runs: seq<Id>, i: nat, x: Id)
    requires i < |runs| && x == runs[i] && multiset(less) == multiset(runs) - multiset{x}
    ensures LessOne(less, runs, i)
  {
  }

  lemma {:induction false} LastOff(runs: seq<Id>, n: nat)
    requires n + 1 == |runs|
    ensures multiset(runs[..n]) == multiset(runs) - multiset{runs[n]}
  {
    assert runs == runs[..n] + [runs[n]];
  }

  lemma {:induction false} Moved(runs: seq<Id>, i: nat, x: Id, moved: seq<Id>)
    requires i < |runs| && moved == runs[i := x]
    ensures multiset(moved) == multiset(runs) - multiset{runs[i]} + multiset{x}
  {
  }

  lemma {:induction false} Exchange(less: multiset<Id>, all: multiset<Id>, moved: multiset<Id>, x: Id, y: Id)
    requires moved == all - multiset{x} + multiset{y} && less == moved - multiset{y}
    ensures less == all - multiset{x}
  {
  }

  /** A job for which there is no process is visible again as it was; one that cannot run is gone. */
  lemma {:induction false} NotStarted(s: State, p: nat, id: Id) returns (back: State, gone: State)
    requires Inv(s) && p in s.procs && Holds(s.procs[p]) && s.procs[p].phase.job.id == id
    ensures Step(s, Settle(p, CannotFork)) == Some(back) && Step(s, Settle(p, CannotRun)) == Some(gone) && Active(id) in s.spool
    ensures back == s.(procs := back.procs, spool := Without(s.spool, Active(id))[Visible(id) := s.spool[Active(id)]])
    ensures gone == s.(procs := gone.procs, spool := Without(s.spool, Active(id)))
  {
    assert ProcOk(s, p, s.procs[p]);
    hide Inv;
    back, gone := Step(s, Settle(p, CannotFork)).value, Step(s, Settle(p, CannotRun)).value;
  }
}
