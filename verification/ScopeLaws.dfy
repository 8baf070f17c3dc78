/** What a name has when it is used: after a call has bound its parameters and autos, and after an
    assignment. */
module ScopeLaws {
  import opened Scope
  import opened Numbers

  function List(params: Params): (r: seq<Param>)
    ensures |r| == ParamCount(params)
  {
    match params
    case NoParams => []
    case MoreParams(p, rest) => [p] + List(rest)
  }

  function ArgList(args: Args): (r: seq<Arg>)
    ensures |r| == ArgCount(args)
  {
    match args
    case NoArgs => []
    case MoreArgs(arg, rest) => [arg] + ArgList(rest)
  }

  // ---- what a name has ----

  /** The current value, or array, of the name is this. */
  ghost predicate Holds(s: Scope, p: Param, x: Passed)
  {
    if p.isArray then x == PassedArray(Last(Arrs(s, p.sym))) else x == PassedValue(Last(Vals(s, p.sym)))
  }

  ghost predicate SameStack(s: Scope, t: Scope, p: Param)
  {
    if p.isArray then Arrs(s, p.sym) == Arrs(t, p.sym) else Vals(s, p.sym) == Vals(t, p.sym)
  }

  /** Under its new value the stack of the name is what it was. */
  ghost predicate OneMore(s: Scope, t: Scope, p: Param)
  {
    if p.isArray then ButLast(Arrs(t, p.sym)) == Arrs(s, p.sym) else ButLast(Vals(t, p.sym)) == Vals(s, p.sym)
  }

  ghost predicate SameNames(s: Scope, t: Scope)
  {
    t.pushed == s.pushed && forall p :: SameStack(s, t, p)
  }

  /** What was passed is of the kinds that the parameters have. */
  ghost predicate KindsFit(params: seq<Param>, passed: seq<Passed>)
  {
    |passed| == |params| && forall i :: 0 <= i < |params| ==> passed[i].PassedArray? == params[i].isArray
  }

  function Fresh(p: Param): Passed
  {
    if p.isArray then PassedArray([]) else PassedValue(Num(false, 0, []))
  }

  function Empty(autos: seq<Param>): (r: seq<Passed>)
    ensures |r| == |autos| && forall i :: 0 <= i < |autos| ==> r[i] == Fresh(autos[i])
  {
    seq(|autos|, i requires 0 <= i < |autos| => Fresh(autos[i]))
  }

  /** The name is none of these. */
  ghost predicate Absent(p: Param, names: seq<Param>, lo: nat, hi: nat)
    requires hi <= |names|
  {
    forall k :: lo <= k < hi ==> names[k] != p
  }

  /** Each name has what was last given to it; one that was given something once has it over what it
      had; every other name has what it had. */
  ghost predicate Bound(s: Scope, t: Scope, names: seq<Param>, given: seq<Passed>)
  {
    && |given| == |names|
    && (forall i :: 0 <= i < |names| && Absent(names[i], names, i + 1, |names|) ==> Holds(t, names[i], given[i]))
    && (forall i :: 0 <= i < |names| && Absent(names[i], names, 0, i) && Absent(names[i], names, i + 1, |names|) ==> OneMore(s, t, names[i]))
    && (forall p :: Absent(p, names, 0, |names|) ==> SameStack(s, t, p))
  }

  // ---- binding ----

  lemma {:induction false} PushesOne(s: Scope, p: Param, x: Passed, q: Param)
    requires x.PassedArray? == p.isArray
    ensures q == p ==> Holds(PushOne(s, p, x), q, x) && OneMore(s, PushOne(s, p, x), q)
    ensures q != p ==> SameStack(s, PushOne(s, p, x), q)
  {
    PushUndo(s, p, x, PushOne(s, p, x), q.sym);
  }

  lemma {:induction false} BoundNone(s: Scope)
    ensures Bound(s, s, [], [])
  {
  }

  lemma {:induction false} AbsentMore(q: Param, p: Param, names: seq<Param>, lo: nat, hi: nat, all: seq<Param>)
    requires hi <= |names| && all == [p] + names && Absent(q, all, lo + 1, hi + 1)
    ensures Absent(q, names, lo, hi)
  {
    assert forall k :: 0 <= k < |names| ==> names[k] == all[k + 1];
  }

  lemma {:induction false} AbsentFirst(q: Param, all: seq<Param>, hi: nat)
    requires 0 < hi <= |all| && Absent(q, all, 0, hi)
    ensures q != all[0] && Absent(q, all, 1, hi)
  {
  }

  /** What was bound before, seen after one binding more in front. */
  lemma {:induction false} BoundMore(s: Scope, p: Param, x: Passed, t: Scope, names: seq<Param>, given: seq<Passed>)
    requires x.PassedArray? == p.isArray && |given| == |names| && Bound(PushOne(s, p, x), t, names, given)
    ensures Bound(s, t, [p] + names, [x] + given)
  {
    hide PushOne, Holds, OneMore, SameStack, Absent, Bound;
    var ns, gs := [p] + names, [x] + given;
    forall i | 0 <= i < |ns| && Absent(ns[i], ns, i + 1, |ns|)
      ensures Holds(t, ns[i], gs[i])
    {
      HoldsAt(s, p, x, t, names, given, i);
    }
    forall i | 0 <= i < |ns| && Absent(ns[i], ns, 0, i) && Absent(ns[i], ns, i + 1, |ns|)
      ensures OneMore(s, t, ns[i])
    {
      OneMoreAt(s, p, x, t, names, given, i);
    }
    forall q | Absent(q, ns, 0, |ns|)
      ensures SameStack(s, t, q)
    {
      SameAt(s, p, x, t, names, given, q);
    }
    BoundIs(s, t, ns, gs);
  }

  lemma {:induction false} BoundIs(s: Scope, t: Scope, names: seq<Param>, given: seq<Passed>)
    requires |given| == |names|
    requires forall i :: 0 <= i < |names| && Absent(names[i], names, i + 1, |names|) ==> Holds(t, names[i], given[i])
    requires forall i :: 0 <= i < |names| && Absent(names[i], names, 0, i) && Absent(names[i], names, i + 1, |names|) ==> OneMore(s, t, names[i])
    requires forall p :: Absent(p, names, 0, |names|) ==> SameStack(s, t, p)
    ensures Bound(s, t, names, given)
  {
    hide Absent, Holds, OneMore, SameStack;
  }

  lemma {:induction false} HoldsAt(s: Scope, p: Param, x: Passed, t: Scope, names: seq<Param>, given: seq<Passed>, i: nat)
    requires x.PassedArray? == p.isArray && |given| == |names| && Bound(PushOne(s, p, x), t, names, given)
    requires var ns := [p] + names; i < |ns| && Absent(ns[i], ns, i + 1, |ns|)
    ensures Holds(t, ([p] + names)[i], ([x] + given)[i])
  {
    hide PushOne, Holds, OneMore, SameStack, Absent;
    var ns := [p] + names;
    AbsentMore(ns[i], p, names, i, |names|, ns);
    if i == 0 {
      PushesOne(s, p, x, p);
      SameHolds(PushOne(s, p, x), t, p, x);
    } else {
      assert ns[i] == names[i - 1] && ([x] + given)[i] == given[i - 1];
    }
  }

  lemma {:induction false} OneMoreAt(s: Scope, p: Param, x: Passed, t: Scope, names: seq<Param>, given: seq<Passed>, i: nat)
    requires x.PassedArray? == p.isArray && |given| == |names| && Bound(PushOne(s, p, x), t, names, given)
    requires var ns := [p] + names; i < |ns| && Absent(ns[i], ns, 0, i) && Absent(ns[i], ns, i + 1, |ns|)
    ensures OneMore(s, t, ([p] + names)[i])
  {
    hide PushOne, Holds, OneMore, SameStack, Absent;
    var u, ns := PushOne(s, p, x), [p] + names;
    AbsentMore(ns[i], p, names, i, |names|, ns);
    PushesOne(s, p, x, ns[i]);
    if i == 0 {
      SameOne(s, u, t, p);
    } else {
      AbsentFirst(ns[i], ns, i);
      AbsentMore(ns[i], p, names, 0, i - 1, ns);
      assert ns[i] == names[i - 1];
      OneLater(s, u, t, ns[i]);
    }
  }

  lemma {:induction false} SameAt(s: Scope, p: Param, x: Passed, t: Scope, names: seq<Param>, given: seq<Passed>, q: Param)
    requires x.PassedArray? == p.isArray && |given| == |names| && Bound(PushOne(s, p, x), t, names, given)
    requires Absent(q, [p] + names, 0, |[p] + names|)
    ensures SameStack(s, t, q)
  {
    hide PushOne, Holds, OneMore, SameStack, Absent;
    var ns := [p] + names;
    AbsentFirst(q, ns, |ns|);
    AbsentMore(q, p, names, 0, |names|, ns);
    PushesOne(s, p, x, q);
    SameTwice(s, PushOne(s, p, x), t, q);
  }

  lemma {:induction false} SameHolds(u: Scope, t: Scope, p: Param, x: Passed)
    requires Holds(u, p, x) && SameStack(u, t, p)
    ensures Holds(t, p, x)
  {
  }

  lemma {:induction false} SameOne(s: Scope, u: Scope, t: Scope, p: Param)
    requires OneMore(s, u, p) && SameStack(u, t, p)
    ensures OneMore(s, t, p)
  {
  }

  lemma {:induction false} OneLater(s: Scope, u: Scope, t: Scope, p: Param)
    requires SameStack(s, u, p) && OneMore(u, t, p)
    ensures OneMore(s, t, p)
  {
  }

  lemma {:induction false} SameTwice(s: Scope, u: Scope, t: Scope, p: Param)
    requires SameStack(s, u, p) && SameStack(u, t, p)
    ensures SameStack(s, t, p)
  {
  }

  lemma {:induction false} AutosBound(s: Scope, autos: Params)
    ensures Bound(s, PushAutos(s, autos), List(autos), Empty(List(autos)))
    decreases autos
  {
    hide PushOne, Bound;
    match autos
    case NoParams =>
      BoundNone(s);
    case MoreParams(p, rest) =>
      var t := PushOne(s, p, Fresh(p));
      AutosBound(t, rest);
      BoundMore(s, p, Fresh(p), PushAutos(t, rest), List(rest), Empty(List(rest)));
      assert Empty(List(autos)) == [Fresh(p)] + Empty(List(rest));
  }

  /** The body of a call starts with its parameters and autos bound. */
  lemma {:induction false} ParamsBound(s: Scope, params: Params, passed: seq<Passed>, autos: Params)
    requires KindsFit(List(params), passed)
    ensures Bound(s, PushAutos(PushParams(s, params, passed), autos), List(params) + List(autos), passed + Empty(List(autos)))
    decreases params
  {
    hide PushOne, Bound, PushAutos, KindsFit, Empty;
    match params
    case NoParams =>
      FitNone(passed);
      AutosBound(s, autos);
      assert [] + List(autos) == List(autos) && [] + Empty(List(autos)) == Empty(List(autos));
    case MoreParams(p, rest) =>
      FitMore(p, List(rest), passed);
      var x, more := passed[0], passed[1..];
      var t := PushOne(s, p, x);
      ParamsBound(t, rest, more, autos);
      BoundMore(s, p, x, PushAutos(PushParams(t, rest, more), autos), List(rest) + List(autos), more + Empty(List(autos)));
      Regroup(p, List(rest), List(autos));
      Regroup(x, more, Empty(List(autos)));
  }

  lemma {:induction false} Regroup<T>(x: T, a: seq<T>, b: seq<T>)
    ensures [x] + (a + b) == ([x] + a) + b
  {
  }

  lemma {:induction false} FitNone(passed: seq<Passed>)
    requires KindsFit([], passed)
    ensures passed == []
  {
  }

  lemma {:induction false} FitMore(p: Param, rest: seq<Param>, passed: seq<Passed>)
    requires KindsFit([p] + rest, passed)
    ensures passed != [] && passed[0].PassedArray? == p.isArray && KindsFit(rest, passed[1..]) && passed == [passed[0]] + passed[1..]
  {
    assert forall i :: 0 <= i < |rest| ==> rest[i] == ([p] + rest)[i + 1];
  }

  // ---- arguments ----

  /** Each argument is evaluated in the state that the ones before it left, and an array is passed as it
      is then. */
  ghost predicate InTurn(states: seq<Scope>, args: seq<Arg>, passed: seq<Passed>)
    requires |states| == |args| + 1 && |passed| == |args|
  {
    forall i :: 0 <= i < |args| ==> EvaluatedOne(states[i], args[i], states[i + 1], passed[i])
  }

  ghost predicate EvaluatedOne(s: Scope, arg: Arg, t: Scope, x: Passed)
  {
    match arg
    case Value(before, v) => Exec(s, before) == (t, true) && x == PassedValue(v)
    case WholeArray(a) => SameNames(s, t) && Holds(s, Param(a, true), x)
  }

  lemma {:induction false} TouchedSame(s: Scope, x: Sym)
    ensures SameNames(s, TouchVal(s, x)) && SameNames(s, TouchArr(s, x))
  {
  }

  /** One argument more in front. */
  lemma {:induction false} TurnsMore(s: Scope, arg: Arg, x: Passed, p: Param, states: seq<Scope>, args: seq<Arg>, passed: seq<Passed>, params: seq<Param>)
    requires |states| == |args| + 1 && |passed| == |args| && InTurn(states, args, passed) && KindsFit(params, passed)
    requires EvaluatedOne(s, arg, states[0], x) && x.PassedArray? == p.isArray
    ensures InTurn([s] + states, [arg] + args, [x] + passed) && KindsFit([p] + params, [x] + passed)
  {
    hide EvaluatedOne;
    var ss, ws, xs := [s] + states, [arg] + args, [x] + passed;
    forall i | 0 <= i < |ws|
      ensures EvaluatedOne(ss[i], ws[i], ss[i + 1], xs[i])
    {
      if i > 0 {
        assert EvaluatedOne(states[i - 1], args[i - 1], states[i], passed[i - 1]);
      }
    }
  }

  lemma {:induction false} Evaluated(s: Scope, args: Args, params: Params) returns (states: seq<Scope>)
    requires Evaluate(s, args, params).1
    ensures var passed := Evaluate(s, args, params).2;
      && |states| == ArgCount(args) + 1 && |passed| == ArgCount(args) == ParamCount(params)
      && states[0] == s && states[ArgCount(args)] == Evaluate(s, args, params).0
      && InTurn(states, ArgList(args), passed) && KindsFit(List(params), passed)
    decreases args
  {
    hide Exec, TouchArr, SameNames, EvaluatedOne, InTurn, KindsFit;
    match args
    case NoArgs =>
      states := [s];
      NoTurns(s);
    case MoreArgs(arg, rest) =>
      var t, x := FirstTurn(s, args, params);
      var more := Evaluated(t, rest, params.rest);
      states := [s] + more;
      TurnsMore(s, arg, x, params.first, more, ArgList(rest), Evaluate(t, rest, params.rest).2, List(params.rest));
  }

  lemma {:induction false} NoTurns(s: Scope)
    ensures InTurn([s], [], []) && KindsFit([], [])
  {
  }

  lemma {:induction false} FirstTurn(s: Scope, args: Args, params: Params) returns (t: Scope, x: Passed)
    requires args.MoreArgs? && Evaluate(s, args, params).1
    ensures params.MoreParams? && EvaluatedOne(s, args.arg, t, x) && x.PassedArray? == params.first.isArray
    ensures var r := Evaluate(t, args.rest, params.rest); Evaluate(s, args, params) == (r.0, r.1, [x] + r.2)
  {
    hide Exec, TouchArr, SameNames;
    var arg := args.arg;
    if arg.WholeArray? {
      t, x := TouchArr(s, arg.sym), PassedArray(Last(Arrs(s, arg.sym)));
      TouchedSame(s, arg.sym);
    } else {
      t, x := Exec(s, arg.before).0, PassedValue(arg.value);
    }
  }

  // ---- calls and assignments ----

  /** A call with as many arguments as parameters, and of their kinds, evaluates them in turn, binds
      them, and runs the body in what this gives. */
  lemma {:induction false} CallBinds(s: Scope, act: Act) returns (states: seq<Scope>, passed: seq<Passed>, start: Scope)
    requires act.Call? && ArgCount(act.args) == ParamCount(act.params) && Evaluate(s, act.args, act.params).1
    ensures |states| == ArgCount(act.args) + 1 && |passed| == ArgCount(act.args)
    ensures states[0] == s && InTurn(states, ArgList(act.args), passed) && KindsFit(List(act.params), passed)
    ensures Bound(states[ArgCount(act.args)], start, List(act.params) + List(act.autos), passed + Empty(List(act.autos)))
    ensures var (u, done) := Exec(start, act.body);
      Do(s, act) == (if done then UnwindTo(u, |states[ArgCount(act.args)].pushed|) else u, done)
  {
    hide Exec, UnwindTo, Bound, InTurn, KindsFit;
    states := Evaluated(s, act.args, act.params);
    passed := Evaluate(s, act.args, act.params).2;
    var t := Evaluate(s, act.args, act.params).0;
    start := PushAutos(PushParams(t, act.params, passed), act.autos);
    ParamsBound(t, act.params, passed, act.autos);
  }

  /** An assignment sets the current value of its name, and changes nothing else. */
  lemma {:induction false} Assigned(s: Scope, x: Sym, v: Num)
    ensures var (t, ok) := Do(s, Assign(x, v));
      && ok && t.pushed == s.pushed && Holds(t, Param(x, false), PassedValue(v)) && SameBelow(Vals(s, x), Vals(t, x))
      && forall p :: p != Param(x, false) ==> SameStack(s, t, p)
  {
  }

  /** A use changes nothing that a name has. */
  lemma {:induction false} Used(s: Scope, x: Sym, i: int)
    ensures var (t, ok) := Do(s, Use(x)); ok && SameNames(s, t)
    ensures var (t, ok) := Do(s, UseElement(x, i)); (ok <==> 0 <= i < DIM_MAX) && SameNames(s, t)
  {
    TouchedSame(s, x);
  }

  /** An element of an array, which is zero beyond its end. */
  function ElementAt(a: Elements, i: nat): Num
  {
    if i < |a| then a[i] else Num(false, 0, [])
  }

  /** An assignment to an element, if there can be one, sets just that element of the current array. */
  lemma {:induction false} ElementAssigned(s: Scope, x: Sym, i: int, v: Num)
    ensures var (t, ok) := Do(s, AssignElement(x, i, v));
      && (ok <==> 0 <= i < DIM_MAX) && (!ok ==> SameNames(s, t))
      && (ok ==> forall k: nat :: ElementAt(Last(Arrs(t, x)), k) == if k == i then v else ElementAt(Last(Arrs(s, x)), k))
      && t.pushed == s.pushed && SameBelow(Arrs(s, x), Arrs(t, x))
      && forall p :: p != Param(x, true) ==> SameStack(s, t, p)
  {
    TouchedSame(s, x);
    if 0 <= i < DIM_MAX {
      var a := Last(Arrs(s, x));
      ElementSet(a, i, v);
      ArraySet(s, x, WithElement(a, i, v));
    }
  }

  lemma {:induction false} ElementSet(a: Elements, i: nat, v: Num)
    requires i < DIM_MAX
    ensures forall k: nat :: ElementAt(WithElement(a, i, v), k) == if k == i then v else ElementAt(a, k)
  {
    RoomEnough(|a|, i);
  }

  lemma {:induction false} ArraySet(s: Scope, x: Sym, a: Elements)
    ensures var t := SetArr(s, x, a);
      && Last(Arrs(t, x)) == a && t.pushed == s.pushed && SameBelow(Arrs(s, x), Arrs(t, x))
      && forall p :: p != Param(x, true) ==> SameStack(s, t, p)
  {
  }

  // ---- room in arrays ----

  function Doubled(n: nat, k: nat): nat
  {
    if k == 0 then n else 2 * Doubled(n, k - 1)
  }

  lemma {:induction false} DoubledFirst(n: nat, k: nat)
    ensures Doubled(2 * n, k) == Doubled(n, k + 1)
  {
    if k > 0 {
      DoubledFirst(n, k - 1);
    }
  }

  lemma {:induction false} GrownDoubles(n: nat, i: nat) returns (k: nat)
    requires n > 0
    ensures Grown(n, i) == Doubled(n, k) > i && (k > 0 ==> Doubled(n, k - 1) <= i)
    decreases i + 1 - n
  {
    if n <= i {
      var j := GrownDoubles(2 * n, i);
      k := j + 1;
      DoubledFirst(n, j);
      if j > 0 {
        DoubledFirst(n, j - 1);
      }
    } else {
      k := 0;
    }
  }

  /** An array is doubled, from sixteen elements if it had none, just until the index fits, but never made
      larger than the limit. */
  lemma {:induction false} RoomDoubles(n: nat, i: nat) returns (k: nat)
    requires i >= n
    ensures var first := if n > 0 then n else 16;
      && Doubled(first, k) > i && (k > 0 ==> Doubled(first, k - 1) <= i)
      && Room(n, i) == if Doubled(first, k) > DIM_MAX then DIM_MAX else Doubled(first, k)
  {
    k := GrownDoubles(if n > 0 then n else 16, i);
  }
}
