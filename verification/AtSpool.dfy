/** The spool of at: submitters, removers and daemons, each step of theirs on the shared directory. */
module AtSpool {
  import opened Options

  /** A job's number and queue, of which its name is made. */
  datatype Id = Id(num: nat, queue: char)

  /** What a job file says; whole when its last line is written. */
  datatype File = File(owner: nat, when: int, whole: bool)

  /** ID, .new.ID and =ID */
  datatype Name = Visible(id: Id) | Fresh(id: Id) | Active(id: Id)

  datatype Found = Found(id: Id, when: int)

  /** How far a submitter is: the counter locked, read, written, released; the file made, finished. */
  datatype Stage = New | Locked | HasRead | HasWritten | Numbered | Writing | Whole

  datatype Phase =
    | Asleep
    | Looking(found: seq<Found>)
    | Walking(todo: seq<Found>, now: int)
    | Holding(job: Found, todo: seq<Found>, now: int)

  datatype Proc =
    | Submitter(stage: Stage, num: nat, queue: char, file: File)
    | Remover(target: Id, user: nat, checked: bool)
    | Daemon(user: nat, phase: Phase, runs: seq<Id>)
    | Ended

  datatype Start = Start(id: Id, at: int)

  /** The shared state, the processes, and what has happened. */
  datatype State = State(
    counter: nat,
    lock: Option<nat>,
    spool: map<Name, File>,
    clock: int,
    procs: map<nat, Proc>,
    issued: seq<nat>,
    published: map<nat, (Id, File)>,
    started: seq<Start>,
    removed: seq<Id>)

  function Begin(clock: int): State
  {
    State(0, None, map[], clock, map[], [], map[], [], [])
  }

  /** What becomes of a job that was renamed to run. */
  datatype Outcome = CannotRun | CannotFork | Forked

  datatype Action =
    | Tick
    | Submit(p: nat, queue: char, when: int, owner: nat)
    | Remove(p: nat, id: Id, user: nat)
    | Serve(p: nat, user: nat)
    | Lock(p: nat)
    | ReadCounter(p: nat)
    | WriteCounter(p: nat)
    | LoseCounter(p: nat)
    | Unlock(p: nat)
    | Create(p: nat)
    | Finish(p: nat)
    | Publish(p: nat)
    | Die(p: nat, cleans: bool)
    | Check(p: nat)
    | Unlink(p: nat)
    | Look(p: nat)
    | See(p: nat, id: Id)
    | Sort(p: nat, order: seq<Found>)
    | Take(p: nat)
    | Rest(p: nat)
    | Settle(p: nat, outcome: Outcome)
    | Reap(p: nat, i: nat)

  function With(s: State, p: nat, x: Proc): State
  {
    s.(procs := s.procs[p := x])
  }

  function Without<K, V>(m: map<K, V>, k: K): map<K, V>
  {
    m - {k}
  }

  // ---- at: submitting ----

  /** next_number and submit, one system call at a time. */
  function SubmitStep(s: State, a: Action, p: nat, w: Proc): Option<State>
    requires w.Submitter?
  {
    var id := Id(w.num, w.queue);
    if a.Lock? && w.stage == New && s.lock == None then
      Some(With(s, p, w.(stage := Locked)).(lock := Some(p)))
    else if a.ReadCounter? && w.stage == Locked then
      Some(With(s, p, w.(stage := HasRead, num := s.counter + 1)))
    else if a.WriteCounter? && w.stage == HasRead then
      Some(With(s, p, w.(stage := HasWritten)).(counter := w.num, issued := s.issued + [w.num]))
    else if a.LoseCounter? && w.stage == HasRead then
      Some(With(s, p, Ended).(counter := 0, lock := None))
    else if a.Unlock? && w.stage == HasWritten then
      Some(With(s, p, w.(stage := Numbered)).(lock := None))
    else if a.Create? && w.stage == Numbered then
      if Fresh(id) in s.spool then Some(With(s, p, Ended))
      else Some(With(s, p, w.(stage := Writing)).(spool := s.spool[Fresh(id) := w.file.(whole := false)]))
    else if a.Finish? && w.stage == Writing then
      Some(With(s, p, w.(stage := Whole)).(spool := s.spool[Fresh(id) := w.file]))
    else if a.Publish? && w.stage == Whole then
      Some(With(s, p, Ended).(spool := Without(s.spool, Fresh(id))[Visible(id) := w.file], published := s.published[w.num := (id, w.file)]))
    else if a.Die? then
      var lock := if s.lock == Some(p) then None else s.lock;
      var spool := if a.cleans && w.stage in {Writing, Whole} then Without(s.spool, Fresh(id)) else s.spool;
      Some(With(s, p, Ended).(lock := lock, spool := spool))
    else None
  }

  // ---- at: removing ----

  function RemoveStep(s: State, a: Action, p: nat, w: Proc): Option<State>
    requires w.Remover?
  {
    var name := Visible(w.target);
    if a.Check? && !w.checked then
      if name in s.spool && s.spool[name].whole && (w.user == 0 || s.spool[name].owner == w.user)
      then Some(With(s, p, w.(checked := true)))
      else Some(With(s, p, Ended))
    else if a.Unlink? && w.checked then
      if name in s.spool then Some(With(s, p, Ended).(spool := Without(s.spool, name), removed := s.removed + [w.target]))
      else Some(With(s, p, Ended))
    else None
  }

  // ---- atd ----

  predicate BatchRunning(runs: seq<Id>)
  {
    exists i :: 0 <= i < |runs| && runs[i].queue == 'b'
  }

  /** By time, then by number. */
  predicate Sorted(f: seq<Found>)
  {
    forall i, j :: 0 <= i < j < |f| ==> f[i].when < f[j].when || (f[i].when == f[j].when && f[i].id.num <= f[j].id.num)
  }

  /** scan, start and reap, one system call at a time. */
  function DaemonStep(s: State, a: Action, p: nat, w: Proc): Option<State>
    requires w.Daemon?
  {
    match w.phase
    case Asleep =>
      if a.Look? then Some(With(s, p, w.(phase := Looking([]))))
      else if a.Reap? && a.i < |w.runs| then
        var last := |w.runs| - 1;
        Some(With(s, p, w.(runs := w.runs[a.i := w.runs[last]][..last])).(spool := Without(s.spool, Active(w.runs[a.i]))))
      else None
    case Looking(found) =>
      if a.See? && Visible(a.id) in s.spool then
        var f := s.spool[Visible(a.id)];
        if f.whole && (w.user == 0 || f.owner == w.user) then Some(With(s, p, w.(phase := Looking(found + [Found(a.id, f.when)]))))
        else None
      else if a.Sort? && multiset(a.order) == multiset(found) && Sorted(a.order) then
        Some(With(s, p, w.(phase := Walking(a.order, s.clock))))
      else None
    case Walking(todo, now) =>
      if a.Rest? && todo == [] then Some(With(s, p, w.(phase := Asleep)))
      else if a.Take? && todo != [] then
        var j := todo[0];
        if j.when > now || (j.id.queue == 'b' && BatchRunning(w.runs)) || Visible(j.id) !in s.spool
        then Some(With(s, p, w.(phase := Walking(todo[1..], now))))
        else Some(With(s, p, w.(phase := Holding(j, todo[1..], now))).(spool := Without(s.spool, Visible(j.id))[Active(j.id) := s.spool[Visible(j.id)]]))
      else None
    case Holding(job, todo, now) =>
      if !a.Settle? then None
      else if a.outcome == CannotRun then
        Some(With(s, p, w.(phase := Walking(todo, now))).(spool := Without(s.spool, Active(job.id))))
      else if a.outcome == CannotFork then
        if Active(job.id) in s.spool
        then Some(With(s, p, w.(phase := Walking(todo, now))).(spool := Without(s.spool, Active(job.id))[Visible(job.id) := s.spool[Active(job.id)]]))
        else Some(With(s, p, w.(phase := Walking(todo, now))))
      else
        Some(With(s, p, w.(phase := Walking(todo, now), runs := w.runs + [job.id])).(started := s.started + [Start(job.id, s.clock)]))
  }

  // ---- any process, in any order ----

  /** The state after an action, if it can happen. */
  function Step(s: State, a: Action): Option<State>
  {
    match a
    case Tick => Some(s.(clock := s.clock + 1))
    case Submit(p, queue, when, owner) =>
      if p in s.procs then None else Some(With(s, p, Submitter(New, 0, queue, File(owner, when, true))))
    case Remove(p, id, user) => if p in s.procs then None else Some(With(s, p, Remover(id, user, false)))
    case Serve(p, user) => if p in s.procs then None else Some(With(s, p, Daemon(user, Asleep, [])))
    case _ =>
      if a.p !in s.procs then None
      else
        var w := s.procs[a.p];
        match w
        case Submitter(_, _, _, _) => SubmitStep(s, a, a.p, w)
        case Remover(_, _, _) => RemoveStep(s, a, a.p, w)
        case Daemon(_, _, _) => DaemonStep(s, a, a.p, w)
        case Ended => None
  }

  /** s' comes about from s by these actions. */
  ghost predicate Leads(s: State, acts: seq<Action>, s': State)
    decreases |acts|
  {
    if acts == [] then s' == s
    else Step(s, acts[0]).Some? && Leads(Step(s, acts[0]).value, acts[1..], s')
  }
}
