/** What a program of bc leaves alone: a name that it does not assign, but for calls that bind the name
    themselves, has the same values and arrays afterwards. */
module ScopeFrame {
  import opened Numbers
  import opened Scope

  /** A name's values, or arrays, are assigned, outside calls that have it as a parameter or auto. */
  predicate Assigns(acts: Acts, p: Push)
    decreases acts
  {
    acts.Then? && (AssignsOne(acts.act, p) || Assigns(acts.rest, p))
  }

  predicate AssignsOne(act: Act, p: Push)
    decreases act
  {
    match act
    case Assign(x, _) => p == Push(x, false)
    case AssignElement(x, _, _) => p == Push(x, true)
    case Call(args, params, autos, body) =>
      ArgsAssign(args, p) || (p !in NamesOf(autos) + NamesOf(params) && Assigns(body, p))
    case _ => false
  }

  predicate ArgsAssign(args: Args, p: Push)
    decreases args
  {
    args.MoreArgs? && ((args.arg.Value? && Assigns(args.arg.before, p)) || ArgsAssign(args.rest, p))
  }

  /** It has what it had: once the pushes are undone, and if there was no error already before. */
  ghost predicate Left(s: Scope, u: Scope, ok: bool, p: Push)
  {
    Restores(s, u, {p}) && (ok ==> Like(s, u) && u.pushed == s.pushed && Exactly(s, u, {p}))
  }

  lemma {:induction false} LeftItself(s: Scope, u: Scope, ok: bool, p: Push)
    requires Like(s, u) && u.pushed == s.pushed && Exactly(s, u, {p})
    ensures Left(s, u, ok, p)
  {
    hide Like, Exactly;
  }

  lemma {:induction false} LeftThen(s: Scope, t: Scope, u: Scope, ok: bool, p: Push)
    requires Left(s, t, true, p) && Left(t, u, ok, p)
    ensures Left(s, u, ok, p)
  {
    var w := UnwindTo(u, |t.pushed|);
    LikeTransitive(s, t, w);
    ExactlyTransitive(s, t, w, p);
    if ok {
      LikeTransitive(s, t, u);
      ExactlyTransitive(s, t, u, p);
    }
    hide Like, Exactly, UnwindTo;
  }

  lemma {:induction false} ExactlyTransitive(s: Scope, t: Scope, u: Scope, p: Push)
    ensures Exactly(s, t, {p}) && Exactly(t, u, {p}) ==> Exactly(s, u, {p})
  {
    hide Vals, Arrs;
  }

  lemma {:induction false} RestoresFewer(s: Scope, u: Scope, names: set<Push>, p: Push)
    requires Restores(s, u, names) && p in names
    ensures Restores(s, u, {p})
  {
    hide Like, UnwindTo, Vals, Arrs;
  }

  lemma {:induction false} SameIsLeft(s: Scope, ok: bool, p: Push)
    ensures Left(s, s, ok, p)
  {
    LikeItself(s);
    LeftItself(s, s, ok, p);
  }

  lemma {:induction false} TouchIsLeft(s: Scope, x: Sym, ok: bool, p: Push)
    ensures Left(s, TouchVal(s, x), ok, p) && Left(s, TouchArr(s, x), ok, p)
  {
    TouchLike(s, x);
    TouchExactly(s, x, p);
    LeftItself(s, TouchVal(s, x), ok, p);
    LeftItself(s, TouchArr(s, x), ok, p);
  }

  lemma {:induction false} TouchExactly(s: Scope, x: Sym, p: Push)
    ensures Exactly(s, TouchVal(s, x), {p}) && Exactly(s, TouchArr(s, x), {p})
  {
  }

  lemma {:induction false} SetIsLeft(s: Scope, x: Sym, v: Num, a: Elements, p: Push)
    ensures p != Push(x, false) ==> Left(s, SetVal(s, x, v), true, p)
    ensures p != Push(x, true) ==> Left(s, SetArr(s, x, a), true, p)
  {
    SetValLike(s, x, v);
    SetArrLike(s, x, a);
    hide Like;
    if p != Push(x, false) {
      LeftItself(s, SetVal(s, x, v), true, p);
    }
    if p != Push(x, true) {
      LeftItself(s, SetArr(s, x, a), true, p);
    }
  }

  /** A program leaves alone what it does not assign. */
  lemma {:induction false} ExecLeaves(s: Scope, acts: Acts, p: Push)
    requires !Assigns(acts, p)
    ensures Left(s, Exec(s, acts).0, Exec(s, acts).1, p)
    decreases acts
  {
    hide Left, Do;
    match acts
    case Done => SameIsLeft(s, true, p);
    case Then(act, rest) =>
      DoLeaves(s, act, p);
      var (t, ok) := Do(s, act);
      if ok {
        ExecLeaves(t, rest, p);
        LeftThen(s, t, Exec(t, rest).0, Exec(t, rest).1, p);
      }
  }

  lemma {:induction false} DoLeaves(s: Scope, act: Act, p: Push)
    requires !AssignsOne(act, p)
    ensures Left(s, Do(s, act).0, Do(s, act).1, p)
    decreases act, 1
  {
    hide Left, Exec, Evaluate, SetVal, SetArr, TouchVal, TouchArr, UnwindTo;
    match act
    case Use(x) => TouchIsLeft(s, x, true, p);
    case UseElement(x, i) => TouchIsLeft(s, x, 0 <= i < DIM_MAX, p);
    case Assign(x, v) => SetIsLeft(s, x, v, [], p);
    case AssignElement(x, i, v) =>
      TouchIsLeft(s, x, false, p);
      if 0 <= i < DIM_MAX {
        SetIsLeft(s, x, v, WithElement(Last(Arrs(s, x)), i, v), p);
      }
    case Call(_, _, _, _) => CallLeaves(s, act, p);
    case Fail => SameIsLeft(s, false, p);
  }

  lemma {:induction false} EvaluateLeaves(s: Scope, args: Args, params: Params, p: Push)
    requires !ArgsAssign(args, p)
    ensures Left(s, Evaluate(s, args, params).0, Evaluate(s, args, params).1, p)
    decreases args
  {
    hide Left, Exec, TouchArr;
    SameIsLeft(s, true, p);
    SameIsLeft(s, false, p);
    match args
    case NoArgs =>
    case MoreArgs(arg, rest) =>
      if !params.NoParams? && params.first.isArray == arg.WholeArray? {
        match arg
        case WholeArray(x) =>
          TouchIsLeft(s, x, true, p);
          EvaluateLeaves(TouchArr(s, x), rest, params.rest, p);
          LeftThen(s, TouchArr(s, x), Evaluate(TouchArr(s, x), rest, params.rest).0, Evaluate(TouchArr(s, x), rest, params.rest).1, p);
        case Value(before, _) =>
          ExecLeaves(s, before, p);
          var (t, ok) := Exec(s, before);
          if ok {
            EvaluateLeaves(t, rest, params.rest, p);
            LeftThen(s, t, Evaluate(t, rest, params.rest).0, Evaluate(t, rest, params.rest).1, p);
          }
      }
  }

  /** After the arguments, the body leaves the name alone or the call binds it. */
  lemma {:induction false} BodyLeaves(t: Scope, params: Params, passed: seq<Passed>, autos: Params, u: Scope, names: set<Push>, p: Push)
    requires |passed| == ParamCount(params) && Restores(PushAutos(PushParams(t, params, passed), autos), u, names)
    requires p in names || p in NamesOf(autos) + NamesOf(params)
    ensures Restores(t, u, {p})
  {
    hide Restores, PushAutos, PushParams;
    RestoreAutos(PushParams(t, params, passed), autos, u, names);
    RestoreParams(t, params, passed, u, names + NamesOf(autos));
    RestoresFewer(t, u, names + NamesOf(autos) + NamesOf(params), p);
  }

  lemma {:induction false} UnwoundIsLeft(t: Scope, u: Scope, p: Push)
    requires Restores(t, u, {p})
    ensures Left(t, UnwindTo(u, |t.pushed|), true, p) && Left(t, u, false, p)
  {
    hide Like, UnwindTo, Exactly;
    LeftItself(t, UnwindTo(u, |t.pushed|), true, p);
  }

  lemma {:induction false} CallLeaves(s: Scope, act: Act, p: Push)
    requires act.Call? && !AssignsOne(act, p)
    ensures Left(s, Do(s, act).0, Do(s, act).1, p)
    decreases act, 0
  {
    hide Left, Exec, Evaluate, Restores, PushAutos, PushParams, UnwindTo;
    SameIsLeft(s, false, p);
    var (t, ok, passed) := Evaluate(s, act.args, act.params);
    EvaluateLeaves(s, act.args, act.params, p);
    EvaluateKeeps(s, act.args, act.params);
    if ok {
      var u0 := PushAutos(PushParams(t, act.params, passed), act.autos);
      var (u, done) := Exec(u0, act.body);
      if p in NamesOf(act.autos) + NamesOf(act.params) {
        ExecKeeps(u0, act.body);
        KeptRestores(u0, u, done);
        BodyLeaves(t, act.params, passed, act.autos, u, {}, p);
      } else {
        ExecLeaves(u0, act.body, p);
        LeftRestores(u0, u, done, p);
        BodyLeaves(t, act.params, passed, act.autos, u, {p}, p);
      }
      UnwoundIsLeft(t, u, p);
      LeftThen(s, t, UnwindTo(u, |t.pushed|), true, p);
      LeftThen(s, t, u, false, p);
    }
  }

  lemma {:induction false} LeftRestores(s: Scope, u: Scope, ok: bool, p: Push)
    requires Left(s, u, ok, p)
    ensures Restores(s, u, {p})
  {
  }

  /** A call leaves the arrays of the caller alone, those that it passes too: whatever the callee does to
      its parameters, only an assignment to the array by its own name changes it, and not even that if
      the callee has a parameter or auto of that name. */
  lemma {:induction false} ArraysUnaffected(s: Scope, act: Act, x: Sym)
    requires act.Call? && Do(s, act).1 && !AssignsOne(act, Push(x, true))
    ensures Arrs(Do(s, act).0, x) == Arrs(s, x)
  {
    hide Do, Arrs, Restores, Like;
    DoLeaves(s, act, Push(x, true));
    assert Push(x, true) in {Push(x, true)};
  }

  lemma {:induction false} AllUnaffected(s: Scope, act: Act)
    requires act.Call?
    ensures Do(s, act).1 ==> forall x :: !AssignsOne(act, Push(x, true)) ==> Arrs(Do(s, act).0, x) == Arrs(s, x)
  {
    hide Do, Arrs, AssignsOne;
    if Do(s, act).1 {
      forall x | !AssignsOne(act, Push(x, true))
        ensures Arrs(Do(s, act).0, x) == Arrs(s, x)
      {
        ArraysUnaffected(s, act, x);
      }
    }
  }

  lemma {:induction false} CallLeavesExactly(s: Scope, act: Act, p: Push)
    requires act.Call? && Do(s, act).1 && !AssignsOne(act, p)
    ensures Exactly(s, Do(s, act).0, {p})
  {
    hide Do, Restores, Like, Exactly;
    DoLeaves(s, act, p);
  }

  lemma {:induction false} BindingsRestored(s: Scope, act: Act)
    requires act.Call? && Do(s, act).1
    ensures
      var t := Evaluate(s, act.args, act.params).0;
      Like(t, Do(s, act).0) && Exactly(t, Do(s, act).0, NamesOf(act.autos) + NamesOf(act.params))
  {
    hide Exec, Evaluate, Like, Restores, PushAutos, PushParams, UnwindTo, Exactly;
    var (t, ok, passed) := Evaluate(s, act.args, act.params);
    EvaluateKeeps(s, act.args, act.params);
    var u0 := PushAutos(PushParams(t, act.params, passed), act.autos);
    ExecKeeps(u0, act.body);
    BodyRestores(t, act.params, passed, act.autos, Exec(u0, act.body).0);
    Unwound(t, Exec(u0, act.body).0, NamesOf(act.autos) + NamesOf(act.params));
  }

  /** call: when it returns, each parameter and auto has the values and arrays it had when the arguments
      were evaluated, and every other stack is as high as then and the same below its end; and whatever
      the call does not assign has what it had before the call. */
  lemma {:induction false} CallRestores(s: Scope, act: Act)
    requires act.Call? && Do(s, act).1
    ensures
      var t := Evaluate(s, act.args, act.params).0;
      Like(t, Do(s, act).0) && Exactly(t, Do(s, act).0, NamesOf(act.autos) + NamesOf(act.params))
    ensures forall p :: !AssignsOne(act, p) ==> Exactly(s, Do(s, act).0, {p})
  {
    hide Do, Evaluate, AssignsOne, Like, Exactly;
    BindingsRestored(s, act);
    forall p | !AssignsOne(act, p)
      ensures Exactly(s, Do(s, act).0, {p})
    {
      CallLeavesExactly(s, act, p);
    }
  }

  /** An item leaves alone what it does not assign, after an error too. */
  lemma {:induction false} ItemLeaves(s: Scope, acts: Acts, p: Push)
    requires !Assigns(acts, p)
    ensures Exactly(s, RunItem(s, acts), {p})
  {
    hide Exec, Like, UnwindTo, Exactly;
    ExecLeaves(s, acts, p);
  }
}
