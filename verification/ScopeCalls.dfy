/** bc/exec.c's call, and the running of a program, with the symbols changed in place. */
module ScopeCalls {
  import opened Scope
  import opened ScopeFrame
  import opened ScopeLaws
  import opened ScopeMachine
  import opened Numbers

  /** An argument that has been evaluated: a value, or an array of its own. */
  datatype Held = HeldValue(value: Num) | HeldArray(arr: Arr)

  ghost function WhatOne(h: Held): Passed
    reads if h.HeldArray? then {h.arr} else {}
  {
    match h
    case HeldValue(v) => PassedValue(v)
    case HeldArray(a) => PassedArray(a.v)
  }

  ghost function What(held: seq<Held>): (passed: seq<Passed>)
    reads set h | h in held && h.HeldArray? :: h.arr
    ensures |passed| == |held| && forall i :: 0 <= i < |held| ==> passed[i] == WhatOne(held[i])
  {
    if held == [] then [] else [WhatOne(held[0])] + What(held[1..])
  }

  /** The arrays are none of these, and each is another. */
  ghost predicate Own(held: seq<Held>, repr: set<Arr>)
  {
    && (forall i :: 0 <= i < |held| && held[i].HeldArray? ==> held[i].arr !in repr)
    && (forall i, j :: 0 <= i < j < |held| && held[i].HeldArray? && held[j].HeldArray? ==> held[i].arr != held[j].arr)
  }

  /** Which parameters are arrays. */
  function Kinds(params: Params): seq<bool>
    decreases params
  {
    match params
    case NoParams => []
    case MoreParams(p, rest) => [p.isArray] + Kinds(rest)
  }

  ghost predicate Fits(kinds: seq<bool>, held: seq<Held>)
  {
    |held| == |kinds| && forall i :: 0 <= i < |held| ==> held[i].HeldArray? == kinds[i]
  }

  /** push_arr or push_var, and note_push */
  method PushHeld(m: Machine, p: Param, h: Held)
    requires m.Valid() && p.isArray == h.HeldArray? && (h.HeldArray? ==> h.arr !in m.repr)
    modifies m
    ensures m.Valid() && m.repr >= old(m.repr) && forall a :: a in m.repr && a !in old(m.repr) && h != HeldArray(a) ==> fresh(a)
    ensures m.View() == PushOne(old(m.View()), p, WhatOne(h))
  {
    if p.isArray {
      m.PushArray(p.sym, h.arr);
    } else {
      m.PushVar(p.sym, h.value);
    }
  }

  /** From i on, what is held is none of the symbols'. */
  ghost predicate OwnFrom(held: seq<Held>, i: nat, repr: set<Arr>)
  {
    forall j :: i <= j < |held| && held[j].HeldArray? ==> held[j].arr !in repr
  }

  lemma {:induction false} PushNext(s: Scope, params: Params, passed: seq<Passed>, i: nat)
    requires params.MoreParams? && i < |passed|
    ensures PushParams(s, params, passed[i..]) == PushParams(PushOne(s, params.first, passed[i]), params.rest, passed[i + 1..])
  {
    assert passed[i..][1..] == passed[i + 1..];
  }

  /** The parameters get the arguments. */
  method PushArgs(m: Machine, params: Params, held: seq<Held>)
    requires m.Valid() && Own(held, {}) && OwnFrom(held, 0, m.repr) && Fits(Kinds(params), held)
    modifies m
    ensures m.Valid() && m.repr >= old(m.repr) && forall a :: a in m.repr && a !in old(m.repr) && HeldArray(a) !in held ==> fresh(a)
    ensures m.View() == PushParams(old(m.View()), params, What(held))
  {
    hide PushOne, PushParams, m.Valid, m.View;
    ghost var passed := What(held);
    var p, i := params, 0;
    assert passed[0..] == passed;
    while p.MoreParams?
      invariant m.Valid() && i <= |held| && Kinds(p) == Kinds(params)[i..] && OwnFrom(held, i, m.repr)
      invariant m.repr >= old(m.repr) && forall a :: a in m.repr && a !in old(m.repr) && HeldArray(a) !in held ==> fresh(a)
      invariant PushParams(m.View(), p, passed[i..]) == PushParams(old(m.View()), params, passed)
      decreases p
    {
      PushNext(m.View(), p, passed, i);
      PushHeld(m, p.first, held[i]);
      p, i := p.rest, i + 1;
    }
    PushNone(m.View(), p, passed[i..]);
  }

  lemma {:induction false} PushNone(s: Scope, params: Params, passed: seq<Passed>)
    requires params.NoParams?
    ensures PushParams(s, params, passed) == s
  {
  }

  /** The autos are zero, or empty. */
  method PushNew(m: Machine, autos: Params)
    requires m.Valid()
    modifies m
    ensures m.Valid() && m.repr >= old(m.repr) && fresh(m.repr - old(m.repr))
    ensures m.View() == PushAutos(old(m.View()), autos)
  {
    hide PushOne;
    var p := autos;
    while p.MoreParams?
      invariant m.Valid() && m.repr >= old(m.repr) && fresh(m.repr - old(m.repr))
      invariant PushAutos(m.View(), p) == PushAutos(old(m.View()), autos)
      decreases p
    {
      var h := HeldValue(Zero());
      if p.first.isArray {
        var a := new Arr([]);
        h := HeldArray(a);
      }
      PushHeld(m, p.first, h);
      p := p.rest;
    }
  }

  /** What a program does to the symbols is what `Exec` says. */
  method RunActs(m: Machine, acts: Acts) returns (ok: bool)
    requires m.Valid() && Deep(m.View())
    modifies m, m.repr
    ensures m.Valid() && Deep(m.View()) && m.repr >= old(m.repr) && fresh(m.repr - old(m.repr))
    ensures (m.View(), ok) == Exec(old(m.View()), acts)
    decreases acts
  {
    hide Deep, Do;
    var a := acts;
    ok := true;
    while a.Then?
      invariant m.Valid() && Deep(m.View()) && m.repr >= old(m.repr) && fresh(m.repr - old(m.repr))
      invariant a == acts || a < acts
      invariant Exec(m.View(), a) == Exec(old(m.View()), acts)
      decreases a
    {
      DoDeep(m.View(), a.act);
      ok := RunAct(m, a.act);
      if !ok {
        return;
      }
      a := a.rest;
    }
  }

  method RunAct(m: Machine, act: Act) returns (ok: bool)
    requires m.Valid() && Deep(m.View())
    modifies m, m.repr
    ensures m.Valid() && m.repr >= old(m.repr) && fresh(m.repr - old(m.repr))
    ensures (m.View(), ok) == Do(old(m.View()), act)
    decreases act, 1
  {
    match act
    case Use(x) =>
      var _ := m.LoadVar(x);
      ok := true;
    case UseElement(x, i) =>
      var v;
      v, ok := m.LoadElement(x, i);
    case Assign(x, v) =>
      m.StoreVar(x, v);
      ok := true;
    case AssignElement(x, i, v) =>
      ok := m.StoreElement(x, i, v);
    case Call(_, _, _, _) =>
      ok := RunCall(m, act);
    case Fail =>
      ok := false;
  }

  /** What an argument comes to. */
  function EvaluateOne(s: Scope, arg: Arg): (Scope, bool, Passed)
  {
    match arg
    case WholeArray(x) => (TouchArr(s, x), true, PassedArray(Last(Arrs(s, x))))
    case Value(before, v) => (Exec(s, before).0, Exec(s, before).1, PassedValue(v))
  }

  lemma {:induction false} EvaluateFirst(s: Scope, args: Args, params: Params)
    requires args.MoreArgs? && params.MoreParams? && params.first.isArray == args.arg.WholeArray?
    ensures var (t, ok, x) := EvaluateOne(s, args.arg);
      var (u, done, more) := Evaluate(t, args.rest, params.rest);
      var r := Evaluate(s, args, params);
      r.1 == (ok && done) && r.0 == (if ok then u else t) && (ok ==> r.2 == [x] + more)
  {
    hide Exec;
  }

  method EvaluateArg(m: Machine, arg: Arg) returns (ok: bool, h: Held)
    requires m.Valid() && Deep(m.View())
    modifies m, m.repr
    ensures m.Valid() && Deep(m.View()) && m.repr >= old(m.repr) && fresh(m.repr - old(m.repr))
    ensures h.HeldArray? == arg.WholeArray? && (h.HeldArray? ==> fresh(h.arr) && h.arr !in m.repr)
    ensures (m.View(), ok, WhatOne(h)) == EvaluateOne(old(m.View()), arg)
    decreases arg
  {
    hide Deep, Exec, TouchArr, Like;
    match arg
    case WholeArray(x) =>
      TouchLike(m.View(), x);
      LikeDeep(m.View(), TouchArr(m.View(), x));
      var a := m.ArrCur(x);
      var c := Machine.CopyArray(a);
      ok, h := true, HeldArray(c);
    case Value(before, v) =>
      ok := RunActs(m, before);
      h := HeldValue(v);
  }

  /** What is held so far, and what is left to evaluate. */
  ghost predicate Halfway(s: Scope, a: Args, p: Params, passed: seq<Passed>, all: (Scope, bool, seq<Passed>))
  {
    var (t, ok, more) := Evaluate(s, a, p);
    all.0 == t && all.1 == ok && (ok ==> all.2 == passed + more)
  }

  ghost predicate FitsSoFar(params: Params, p: Params, held: seq<Held>)
  {
    |held| <= |Kinds(params)| && Fits(Kinds(params)[..|held|], held) && Kinds(params)[|held|..] == Kinds(p)
  }

  lemma {:induction false} HoldNothing(s: Scope, args: Args, params: Params, repr: set<Arr>)
    ensures Own([], repr) && FitsSoFar(params, params, []) && Halfway(s, args, params, [], Evaluate(s, args, params))
  {
    hide Evaluate;
  }

  lemma {:induction false} HoldAll(s: Scope, a: Args, params: Params, p: Params, held: seq<Held>, passed: seq<Passed>, all: (Scope, bool, seq<Passed>))
    requires a.NoArgs? && FitsSoFar(params, p, held) && Halfway(s, a, p, passed, all)
    ensures all.0 == s && all.1 == p.NoParams? && (all.1 ==> all.2 == passed && Fits(Kinds(params), held))
  {
    if p.NoParams? {
      assert Kinds(params)[..|held|] == Kinds(params);
    }
  }

  lemma {:induction false} HoldOne(held: seq<Held>, h: Held, after: set<Arr>)
    requires Own(held, {}) && OwnFrom(held, 0, after)
    requires h.HeldArray? ==> h.arr !in after && forall j :: 0 <= j < |held| ==> held[j] != h
    ensures Own(held + [h], after)
    ensures What(held + [h]) == What(held) + [WhatOne(h)]
  {
  }

  lemma {:induction false} FitOne(params: Params, p: Params, held: seq<Held>, h: Held)
    requires p.MoreParams? && FitsSoFar(params, p, held) && h.HeldArray? == p.first.isArray
    ensures FitsSoFar(params, p.rest, held + [h])
  {
    var k, n := Kinds(params), |held|;
    assert k[n..][0] == p.first.isArray && k[n..][1..] == Kinds(p.rest);
  }

  /** One argument more; an error in it is one in all. */
  lemma {:induction false} HalfwayOne(s: Scope, a: Args, p: Params, passed: seq<Passed>, all: (Scope, bool, seq<Passed>))
    requires a.MoreArgs? && Halfway(s, a, p, passed, all)
    ensures
      if p.NoParams? || p.first.isArray != a.arg.WholeArray? then all.0 == s && !all.1
      else
        var (t, ok, x) := EvaluateOne(s, a.arg);
        if ok then Halfway(t, a.rest, p.rest, passed + [x], all) else all.0 == t && !all.1
  {
    hide Exec;
    if p.MoreParams? && p.first.isArray == a.arg.WholeArray? {
      EvaluateFirst(s, a, p);
      var (t, ok, x) := EvaluateOne(s, a.arg);
      hide Evaluate, EvaluateOne;
      assert passed + ([x] + Evaluate(t, a.rest, p.rest).2) == passed + [x] + Evaluate(t, a.rest, p.rest).2;
    }
  }

  /** The arguments, one after the other; an array is copied. */
  method EvaluateArgs(m: Machine, args: Args, params: Params) returns (ok: bool, held: seq<Held>)
    requires m.Valid() && Deep(m.View())
    modifies m, m.repr
    ensures m.Valid() && Deep(m.View()) && m.repr >= old(m.repr) && fresh(m.repr - old(m.repr))
    ensures ok ==> (forall j :: 0 <= j < |held| && held[j].HeldArray? ==> fresh(held[j].arr)) && Own(held, m.repr) && Fits(Kinds(params), held)
    ensures m.View() == Evaluate(old(m.View()), args, params).0 && ok == Evaluate(old(m.View()), args, params).1
    ensures ok ==> What(held) == Evaluate(old(m.View()), args, params).2
    decreases args
  {
    hide Deep, Evaluate, EvaluateOne, What, FitsSoFar, Halfway, Fits, m.Valid, m.View;
    ghost var all := Evaluate(m.View(), args, params);
    var a, p := args, params;
    held := [];
    HoldNothing(m.View(), args, params, m.repr);
    while a.MoreArgs?
      invariant m.Valid() && Deep(m.View()) && m.repr >= old(m.repr) && fresh(m.repr - old(m.repr))
      invariant a == args || a < args
      invariant (forall j :: 0 <= j < |held| && held[j].HeldArray? ==> fresh(held[j].arr)) && Own(held, m.repr) && FitsSoFar(params, p, held)
      invariant Halfway(m.View(), a, p, What(held), all)
      decreases a
    {
      HalfwayOne(m.View(), a, p, What(held), all);
      if p.NoParams? || p.first.isArray != a.arg.WholeArray? {
        return false, held;
      }
      var done, h := EvaluateArg(m, a.arg);
      if !done {
        return false, held;
      }
      HoldOne(held, h, m.repr);
      FitOne(params, p, held, h);
      held := held + [h];
      a, p := a.rest, p.rest;
    }
    ok := p.NoParams?;
    HoldAll(m.View(), a, params, p, held, What(held), all);
  }

  lemma {:induction false} FitsKinds(params: Params, held: seq<Held>)
    requires Fits(Kinds(params), held)
    ensures KindsFit(List(params), What(held)) && |List(params)| == |held|
  {
    KindsAre(params);
    hide Kinds, List, ParamCount, What, WhatOne;
    forall i | 0 <= i < |held|
      ensures What(held)[i].PassedArray? == List(params)[i].isArray
    {
      KindIs(held[i]);
    }
  }

  lemma {:induction false} KindIs(h: Held)
    ensures WhatOne(h).PassedArray? == h.HeldArray?
  {
  }

  lemma {:induction false} KindsAre(params: Params)
    ensures |Kinds(params)| == |List(params)| && forall i :: 0 <= i < |List(params)| ==> Kinds(params)[i] == List(params)[i].isArray
    decreases params
  {
    match params
    case NoParams =>
    case MoreParams(p, rest) =>
      KindsAre(rest);
  }

  /** The parameters and the autos are pushed. */
  method PushAll(m: Machine, act: Act, held: seq<Held>)
    requires m.Valid() && Deep(m.View()) && act.Call? && Own(held, {}) && OwnFrom(held, 0, m.repr) && Fits(Kinds(act.params), held)
    modifies m
    ensures m.Valid() && Deep(m.View()) && m.repr >= old(m.repr)
    ensures forall a :: a in m.repr && a !in old(m.repr) && HeldArray(a) !in held ==> fresh(a)
    ensures m.View() == PushAutos(PushParams(old(m.View()), act.params, What(held)), act.autos)
    ensures Bound(old(m.View()), m.View(), List(act.params) + List(act.autos), What(held) + Empty(List(act.autos)))
  {
    hide Deep, PushParams, PushAutos, Bound, KindsFit, Fits, Kinds, m.Valid, m.View;
    FitsKinds(act.params, held);
    ParamsBound(m.View(), act.params, What(held), act.autos);
    ParamsDeep(m.View(), act.params, What(held));
    PushArgs(m, act.params, held);
    AutosDeep(m.View(), act.autos);
    PushNew(m, act.autos);
  }

  /** call */
  method RunCall(m: Machine, act: Act) returns (ok: bool)
    requires m.Valid() && Deep(m.View()) && act.Call?
    modifies m, m.repr
    ensures m.Valid() && m.repr >= old(m.repr) && fresh(m.repr - old(m.repr))
    ensures (m.View(), ok) == Do(old(m.View()), act)
    ensures ok ==> forall x :: !AssignsOne(act, Push(x, true)) ==> Arrs(m.View(), x) == Arrs(old(m.View()), x)
    decreases act, 0
  {
    hide AssignsOne, Arrs, Deep, Exec, Evaluate, PushParams, PushAutos, UnwindTo, What, Fits, m.Valid;
    if ArgCount(act.args) != ParamCount(act.params) {
      return false;
    }
    AllUnaffected(m.View(), act);
    EvaluateDeep(m.View(), act.args, act.params);
    var held;
    ok, held := EvaluateArgs(m, act.args, act.params);
    if !ok {
      return;
    }
    var mark := |m.pushed|;
    PushAll(m, act, held);
    ok := RunActs(m, act.body);
    if ok {
      m.Unwind(mark);
    }
  }

  /** run_item: after an error the calls in progress are undone. */
  method Run(m: Machine, acts: Acts)
    requires m.Valid() && Deep(m.View())
    modifies m, m.repr
    ensures m.Valid() && Deep(m.View()) && m.repr >= old(m.repr) && fresh(m.repr - old(m.repr))
    ensures m.View() == RunItem(old(m.View()), acts)
    ensures Like(old(m.View()), m.View()) && m.View().pushed == old(m.View()).pushed
  {
    hide Deep, Exec, UnwindTo, Like;
    var mark := |m.pushed|;
    ExecDeep(m.View(), acts);
    RunItemKeeps(m.View(), acts);
    LikeDeep(m.View(), RunItem(m.View(), acts));
    var ok := RunActs(m, acts);
    if !ok {
      m.Unwind(mark);
    }
  }
}
